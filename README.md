# pp-challenge core, modelled in Dafny

pp-challenge is a medication browser with three parts:

- a NestJS backend, which serves drug labels from Postgres through Prisma, searches them in Elasticsearch and answers chat questions with an OpenAI model that can call a retrieval tool over a Chroma collection;
- a Next.js front end, which lists and filters medications through `filter_<category>` URL parameters, renders tag pills and runs a chat side panel;
- a Python worker, which cleans and restructures the HTML of FDA label documents and loads them into Postgres, Elasticsearch and Chroma.

This project models the deterministic logic each part wraps around its external collaborators, and proves what that logic promises. Every collaborator becomes a parameter of the model:

- the database and search clients;
- the language model;
- the vector store;
- `fetch`;
- BeautifulSoup's parser and serialiser;
- `JSON.parse` of tool arguments.

The modules by part:

- **Backend.**
  - `Medications`: cursor pagination with a base64 cursor (section 4 of RFC 4648, as Node's `Buffer` applies it, in `Base64` and `Utf8`).
  - `Elasticsearch`: the search_after page and the bulk request.
  - `Paging`: the over-fetch page both services share.
  - `Chat`: the tool-call loop and its confirmation prompts.
  - `Retrieval`: the distance-to-score mapping.
  - `FilterDto`: the query DTO's transforms and bounds.
- **Front end.**
  - `SearchPage`: the `filter_*` codec, the search-or-list choice and the URL rewrite, over `UrlParams`, the form-urlencoded `URLSearchParams` of section 5 of the WHATWG URL Standard.
  - `ClickablePill`, `FilterPillContainer`, `SearchBar`, `TagsByCategory` and `TagService`: the components and the tag service.
  - `MedicationAssistant`: the chat panel's state machine.
  - `RenderBlocks`: block rendering with its tag whitelist.
- **Worker.**
  - `ProcessUnstructured`: the regex tag stripper.
  - `DataCleanup`: the cleaning of label HTML.
  - `FixHtml`: orphan wrapping.
  - `StructureJson` and `DataStructure`: the two HTML-to-JSON structurers.
  - `PrepareItem`: the text extraction for Chroma.
  - `UpsertPostgres`, `UpsertElasticsearch` and `UpsertChroma`: the three loaders.
  - `SimilarRanking`: the similar-ranking update.
  - `SimilarDrugs`: the similar-drug ranking (`Counter.most_common`).
- **Shared.** `Html` (the parsed tree), `Json` (values, `json.dumps`, `JSON.stringify`), `Text` (the Python and ECMAScript whitespace sets, strip, split, join) and `Seqs`.

Code that updates state step by step is modelled as classes and methods with loops. Each method is proved against a specification function, and the lemmas about that function state what the source promises.

In a few places the repository's own tests expect behaviour the code does not have. The model follows the code:

- "should fallback to database search when Elasticsearch returns no results" and "... when Elasticsearch throws an error" (backend/src/medications/medications.service.spec.ts:497 and :513);
- "Should only use the last 10 messages from context" (backend/src/chat/chat.service.spec.ts:238-271, within the `chat` tests at :105-459);
- "should handle rate limiter errors", with `rateLimiter` mocked from `../utils/rate-limiter` (backend/src/chat/chat.service.spec.ts:4-73 and :353);
- a `searchMedicationsWithFilters` method on the backend's Elasticsearch service (backend/src/medications/medications.service.spec.ts:22 and :394);
- "should maintain order of medications from Elasticsearch results" after a database lookup (backend/src/medications/medications.service.spec.ts:525);
- "renders collapsed by default when defaultExpanded is false", which renders the container without the prop and expects the options hidden, and "exposes clearFilters method via ref" (app/src/components/__tests__/FilterPillContainer.test.tsx:26 and :151).

In the code:

- the backend's medications service has only `getMedications` and `getMedicationBySlug`, so there is no Elasticsearch search with a database fallback and no re-ordering step;
- the backend's Elasticsearch service names its search method `searchMedications`;
- the chat service neither truncates the history nor calls the rate limiter that backend/src/utils/rate-limiter.ts defines;
- the filter container is expanded by default and has no `clearFilters`.

## Model

| member | source | states |
|---|---|---|
| Text.Trim | app/src/components/SearchBar.tsx:22-23 | trimming (`trim()` with the ECMAScript set, `strip()` with Python's) yields a result no longer than the input, empty iff the input is blank, and with no whitespace at either end |
| Text.TrimSlice | app/src/components/SearchBar.tsx:22-23 | the trimmed text is the slice of the input between a blank prefix and a blank suffix |
| Text.TrimUnchanged | app/src/components/SearchBar.tsx:22-23 | a text with no whitespace at either end is its own trim |
| Text.VisibleTrim | worker/scripts/prepare_item_for_chromadb.py:57 | trimming removes whitespace only: the non-whitespace characters stay, in order |
| Text.Split | backend/src/medications/dto/filter-medications.dto.ts:8 | `split(sep)` yields at least one piece, none holding the separator |
| Text.SplitJoin | app/src/app/page.tsx:28-112 | splitting a join gives the parts back when no part holds the separator |
| Text.JoinSplit | app/src/app/page.tsx:28-112 | joining the pieces of a split gives the string back |
| Text.IntToString | app/src/services/tagService.ts:20 | the decimal text of an integer is made of digits and '-' |
| Json.GetSpec | worker/scripts/upsert_items_to_elasticsearch.py:102-103 | a key is found iff some pair has it, and what is found is that pair's value |
| Json.MapLeaves | worker/activities/process_unstructured_drug_information.py:53-60 | rewriting every scalar keeps every dict key and list position, and applies the rewrite to a scalar |
| Json.MapLeavesAll | worker/activities/process_unstructured_drug_information.py:53-60 | a leaf rewrite whose results all satisfy a property gives a value whose every leaf does |
| Json.MapLeavesLeafwise | worker/activities/process_unstructured_drug_information.py:53-60 | the recursive walk rewrites every scalar, at any depth, by the leaf function and nothing else: each scalar of the result is the leaf function of the scalar at the same position |
| Json.EscapeChar | backend/src/chat/chat.service.ts:110 | `JSON.stringify` writes one character as one to six characters |
| Json.UnescapeChar | backend/src/chat/chat.service.ts:110 | an escaped character followed by anything reads back as that character and then the rest |
| Json.UnescapeEscape | backend/src/chat/chat.service.ts:110 | reading the string literal `JSON.stringify` wrote gives the string back |
| Utf8.EncodeChar | backend/src/medications/medications.service.ts:67 | a character encodes to one to four bytes, and to exactly one iff its code point is below 0x80 |
| Utf8.Accepted | backend/src/medications/medications.service.ts:22 | the decoder accepts at most as many continuation bytes as the lead byte announces and never more than the input holds |
| Utf8.CodePoint | backend/src/medications/medications.service.ts:22 | a complete well-formed multi-byte sequence yields a Unicode scalar value of at least 0x80 |
| Utf8.Decode | backend/src/medications/medications.service.ts:22 | `toString('utf-8')` is total: every byte string decodes, to no more characters than it has bytes and to a non-empty string when it is non-empty |
| Utf8.DecodeTwo | backend/src/medications/medications.service.ts:22 | a well-formed two-byte sequence is announced and accepted as such, decodes to its code point, and decoding goes on after it |
| Utf8.DecodeThree | backend/src/medications/medications.service.ts:22 | a well-formed three-byte sequence is announced and accepted as such, decodes to its code point, and decoding goes on after it |
| Utf8.DecodeFour | backend/src/medications/medications.service.ts:22 | a well-formed four-byte sequence is announced and accepted as such, decodes to its code point, and decoding goes on after it |
| Utf8.DecodeEncodeChar | backend/src/medications/medications.service.ts:22-67 | decoding the encoding of one character, followed by anything, gives that character and then the decoding of the rest |
| Utf8.DecodeEncodeTwo | backend/src/medications/medications.service.ts:22-67 | the two-byte case of the character round trip |
| Utf8.DecodeEncodeThree | backend/src/medications/medications.service.ts:22-67 | the three-byte case of the character round trip |
| Utf8.DecodeEncodeFour | backend/src/medications/medications.service.ts:22-67 | the four-byte case of the character round trip |
| Utf8.DecodeEncode | backend/src/medications/medications.service.ts:22-67 | decoding the UTF-8 encoding of any string gives the string back |
| Utf8.EncodeAscii | backend/src/medications/medications.service.ts:67 | an ASCII string encodes to one byte per character, equal to its code point |
| Utf8.EncodeAppend | backend/src/medications/medications.service.ts:67 | encoding distributes over concatenation |
| Base64.EncodeDigit | backend/src/medications/medications.service.ts:67 | each sextet maps to an ASCII digit of the standard alphabet of RFC 4648 section 4, never '=' |
| Base64.DecodeDigit | backend/src/medications/medications.service.ts:22 | the decoding table gives a sextet or the marker 255 for every byte |
| Base64.ToSextets | backend/src/medications/medications.service.ts:67 | n bytes regroup into (4n + 2) / 3 sextets, the last one filled with zero bits |
| Base64.Digits | backend/src/medications/medications.service.ts:67 | one digit per sextet |
| Base64.Encode | backend/src/medications/medications.service.ts:67 | `toString('base64')` yields 4 * ceil(n / 3) characters, '='-padded |
| Base64.EncodedLength | backend/src/medications/medications.service.ts:67 | the digits and padding of n bytes fill 4 * ceil(n/3) characters |
| Base64.CodeUnits | backend/src/medications/medications.service.ts:22 | the decoder sees at least one UTF-16 code unit per character, each below 0x10000 |
| Base64.Sextets | backend/src/medications/medications.service.ts:22 | the decoder collects legal sextets only, no more than it was given code units, stopping at the first '=' |
| Base64.FromSextets | backend/src/medications/medications.service.ts:22 | at most three bytes per four sextets; a trailing group of n > 1 sextets gives n - 1 bytes |
| Base64.Decode | backend/src/medications/medications.service.ts:20-26 | `Buffer.from(s, 'base64')` is total, so the catch branch cannot be taken, and yields at most three bytes per four code units |
| Base64.DigitRoundTrip | backend/src/medications/medications.service.ts:22-67 | the decoding table reads every digit of the standard alphabet back as its sextet |
| Base64.CodeUnitsAscii | backend/src/medications/medications.service.ts:22 | an ASCII string is one code unit per character, equal to its code point |
| Base64.CodeUnitsCons | backend/src/medications/medications.service.ts:22 | a BMP character is one code unit, followed by the code units of the rest |
| Base64.SextetsCons | backend/src/medications/medications.service.ts:22-67 | a standard digit in front of any code units is collected as its sextet |
| Base64.PaddingSextets | backend/src/medications/medications.service.ts:22 | the padding '' , '=' or '==' gives no sextet |
| Base64.SextetsOfDigits | backend/src/medications/medications.service.ts:22-67 | the decoder reads back the digits the encoder wrote and stops at the padding |
| Base64.GroupRoundTrip | backend/src/medications/medications.service.ts:22-67 | three bytes survive a trip through four sextets |
| Base64.FromToSextets | backend/src/medications/medications.service.ts:22-67 | regrouping the sextets of any bytes gives the bytes back |
| Base64.OneByteBack | backend/src/medications/medications.service.ts:22-67 | a trailing single byte survives the trip |
| Base64.TwoBytesBack | backend/src/medications/medications.service.ts:22-67 | a trailing pair of bytes survives the trip |
| Base64.DecodeEncode | backend/src/medications/medications.service.ts:22-67 | decoding what was encoded gives the bytes back (the RFC 4648 round trip) |
| Base64.DecodeEncodeText | backend/src/medications/medications.service.ts:22-67 | the cursor codec round-trips every string: UTF-8 then base64, read back, is the identity |
| Paging.Window | backend/src/medications/medications.service.ts:60-61 | more rows exist exactly when the store sent more than limit, and the page is the first min(n, limit) rows |
| Medications.PageOf | backend/src/medications/medications.service.ts:59-74 | hasMore iff more than limit rows came back; the page is their prefix of length min(n, limit); a next cursor exists iff hasMore and the page is non-empty, and it is the base64 of the last id |
| Medications.RequestFor | backend/src/medications/medications.service.ts:18-57 | the request takes limit + 1 rows ordered by ascending id with the listed columns, and has a cursor clause iff the cursor is truthy and decodes to a non-empty id, that id |
| Medications.GetMedications | backend/src/medications/medications.service.ts:14-75 | the request is RequestFor(cursor, limit or 10); a store error propagates and a store answer is paged by PageOf |
| Medications.NextCursorRoundTrip | backend/src/medications/medications.service.ts:22-68 | the cursor handed out decodes to exactly the id of the last drug on the page, which is row limit - 1 |
| Medications.FollowCursor | backend/src/medications/medications.service.ts:20-68 | following a page's cursor asks for rows starting at the last id returned |
| Medications.LenientCursor | backend/src/medications/medications.service.ts:20-26 | a cursor starting with two lower-case letters always decodes to a non-empty id, whatever follows |
| Medications.InvalidCursorPassedOn | backend/src/medications/medications.service.ts:20-36 | the malformed cursor "invalid-base64" is not rejected: its lenient decoding goes to the store as the cursor id |
| Elasticsearch.MapHits | backend/src/elasticsearch/elasticsearch.service.ts:71-77 | every hit becomes {slug, score} in order; reading fails iff some hit has no _source |
| Elasticsearch.SortKeyText | backend/src/elasticsearch/elasticsearch.service.ts:87 | `sort?.[0]?.toString()` is defined iff the hit has a non-empty sort whose first value is not null |
| Elasticsearch.PageOf | backend/src/elasticsearch/elasticsearch.service.ts:71-103 | an unreadable hit gives the empty page; otherwise hasMore iff more than limit hits, the page is the first min(n, limit) results, and the cursor is the sort key of hit limit - 1 when hasMore |
| Elasticsearch.SearchMedications | backend/src/elasticsearch/elasticsearch.service.ts:38-104 | the query asks for limit + 1 hits (default 20) by descending score over the nine fields, with search_after [cursor] iff the cursor is truthy; a client error gives the empty page |
| Elasticsearch.BulkOperations | backend/src/elasticsearch/elasticsearch.service.ts:120-123 | two operations per medication: the index action under its id at position 2k, the document itself at 2k + 1 |
| Elasticsearch.DocumentsOfBulk | backend/src/elasticsearch/elasticsearch.service.ts:120-123 | the documents read back from the odd positions of the bulk body are the medications in order |
| Elasticsearch.BulkIndexMedications | backend/src/elasticsearch/elasticsearch.service.ts:118-129 | the bulk body sent is BulkOperations(medications); an error is swallowed |
| Elasticsearch.IndexMedication | backend/src/elasticsearch/elasticsearch.service.ts:106-116 | one document is indexed in drugs_db under the medication's id; an error is swallowed |
| Retrieval.MapResults | backend/src/chat/search-medical-data.service.ts:43-47 | one result per id of the first row, in order, scored 1 - distance (1 when the distance is missing or 0) with the metadata as payload ({} when missing); no first row is an error |
| Retrieval.SearchMedicalData | backend/src/chat/search-medical-data.service.ts:25-52 | the store's failure is re-thrown unchanged; otherwise the answer is MapResults of the first row |
| Chat.PromptsEmbedVerbatim | backend/src/chat/chat.service.ts:181-196 | the confirmation prompts carry the search results and the user prompt verbatim between their BEGIN and END markers |
| Chat.ReviewItems | backend/src/chat/chat.service.ts:99-102 | one object per search result in order, holding its id and, when the payload has the requested field, that value, and no other key |
| Chat.ChatWith | backend/src/chat/chat.service.ts:76-128 | the tool-call loop returns exactly ChatOutcome: the first message, then one confirmation message per search tool call, or the first error |
| Chat.ToolStep | backend/src/chat/chat.service.ts:93-121 | one tool call: another tool adds nothing; the search tool gives its confirmation message, or the error of the argument parse, the retrieval or the completion |
| Chat.ReviewsPrefix | backend/src/chat/chat.service.ts:92-124 | one more tool call after calls that went through appends its message, adds nothing, or ends the chat with its error |
| Chat.ErrorSticks | backend/src/chat/chat.service.ts:92-124 | once a tool call has raised, later tool calls change nothing: the error is the outcome |
| Chat.ReviewsPerSearchCall | backend/src/chat/chat.service.ts:92-124 | when every tool call goes through there is exactly one review per search_medication_data call, every such call's arguments parsed, and other tools add nothing |
| Chat.ChatShape | backend/src/chat/chat.service.ts:87-127 | the answer starts with the first completion's message; without tool calls it is only that, with them it has one more message per search call |
| Chat.BadArgumentsAbort | backend/src/chat/chat.service.ts:95-97 | arguments JSON.parse rejects abort the chat when every earlier call went through |
| ClickablePill.Render | app/src/components/ClickableSimplePill.tsx:12-35 | the pill shows its text; it is a plain pill iff the category is missing or empty, otherwise a link titled 'Filter by ' + text to '/?' followed by the serialised single parameter filter_<category>=text |
| ClickablePill.LinkFilters | app/src/components/ClickableSimplePill.tsx:21-24 | following a pill's link, the search page reads exactly one filter: the pill's category with the text's comma-separated pieces |
| ClickablePill.PrefixUnreserved | app/src/components/ClickableSimplePill.tsx:23 | a parameter name filter_<category> made of unreserved characters is written unescaped |
| ClickablePill.HrefOf | app/src/components/ClickableSimplePill.tsx:22-24 | the href is '/?' + encoded name + '=' + encoded text |
| ClickablePill.SpaceAsPlus | app/src/components/ClickableSimplePill.tsx:22-24 | a space in the text is written as '+', so "Test Pill" links to ...=Test+Pill |
| ClickablePill.AmpersandEscaped | app/src/components/ClickableSimplePill.tsx:22-24 | an '&' in the text is written as %26 and cannot start a second parameter |
| FilterDto.Count | backend/src/medications/dto/filter-medications.dto.ts:8 | the number of separator occurrences is at most the length |
| FilterDto.TransformTags | backend/src/medications/dto/filter-medications.dto.ts:6-11 | a string becomes the array of its comma-separated pieces, each trimmed, in order; any other value passes through unchanged |
| FilterDto.Strings | backend/src/medications/dto/filter-medications.dto.ts:13 | the array passes @IsString({each}) iff every item is a string, and then yields those strings in order |
| FilterDto.ValidateTags | backend/src/medications/dto/filter-medications.dto.ts:5-14 | an absent field is accepted as absent; a present one is accepted iff its transform is an array of strings, and then holds exactly those strings |
| FilterDto.StringTagsValid | backend/src/medications/dto/filter-medications.dto.ts:6-14 | a string value always passes, and its tags are its trimmed comma-separated pieces |
| FilterDto.LimitFailures | backend/src/medications/dto/filter-medications.dto.ts:61-64 | a converted limit fails no constraint exactly when it is a finite whole number between 1 and 100 |
| FilterDto.ValidateLimit | backend/src/medications/dto/filter-medications.dto.ts:60-65 | an absent limit is 20; a present one is accepted iff it is an integer in [1, 100], and then is that number; a rejection names at least one failed constraint |
| FilterDto.ValidateAll | backend/src/medications/dto/filter-medications.dto.ts:5-58 | a list of tag fields is accepted iff each one is, and then holds each field's validated value |
| FilterDto.Validate | backend/src/medications/dto/filter-medications.dto.ts:4-70 | the query is valid iff the five tag fields, the limit and the cursor (absent or a string) are; the result holds each field's validated value |
| FilterDto.SplitCount | backend/src/medications/dto/filter-medications.dto.ts:8 | split yields one more piece than there are separators |
| FilterDto.PieceCount | backend/src/medications/dto/filter-medications.dto.ts:8 | a string with n commas yields n + 1 tags: empty pieces are kept |
| FilterDto.EmptyPieceKept | backend/src/medications/dto/filter-medications.dto.ts:8 | "x, ,y" yields the three tags x, "" and y |
| FilterDto.SplitThree | backend/src/medications/dto/filter-medications.dto.ts:8 | "x, ,y" splits into x, " " and y |
| FilterDto.TagsTrimmed | backend/src/medications/dto/filter-medications.dto.ts:8 | every tag the transform yields starts and ends with a non-space |
| FilterDto.TrimTrimmed | backend/src/medications/dto/filter-medications.dto.ts:8 | trimming an already trimmed string changes nothing |
| FilterDto.JoinTransform | backend/src/medications/dto/filter-medications.dto.ts:6-11 | writing trimmed, comma-free tags as one comma-separated value and transforming it gives the same tags back |
| FilterPillContainer.Remove | app/src/components/FilterPillContainer.tsx:34 | filter keeps exactly the values other than the one removed |
| FilterPillContainer.NextSelection | app/src/components/FilterPillContainer.tsx:28-41 | the value is selected afterwards iff it was not before; in multiple mode others are untouched, an absent value is appended and a present one removed; in single mode at most that one value is selected |
| FilterPillContainer.RemoveAbsent | app/src/components/FilterPillContainer.tsx:34 | removing an absent value changes nothing |
| FilterPillContainer.RemoveAppend | app/src/components/FilterPillContainer.tsx:34 | removal works piecewise, so the values that stay keep their relative order |
| FilterPillContainer.RemoveNoDup | app/src/components/FilterPillContainer.tsx:34 | removal keeps a duplicate-free selection duplicate-free |
| FilterPillContainer.ToggleTwice | app/src/components/FilterPillContainer.tsx:33-37 | in multiple mode, selecting the same absent value twice restores the selection |
| FilterPillContainer.NextNoDup | app/src/components/FilterPillContainer.tsx:28-41 | every click keeps the selection duplicate-free |
| FilterPillContainer.Container.constructor | app/src/components/FilterPillContainer.tsx:18-26 | mounting selects nothing and is expanded unless defaultExpanded is false |
| FilterPillContainer.Container.HandlePillSelect | app/src/components/FilterPillContainer.tsx:28-45 | the new selection is NextSelection of the old one, the callback when present receives exactly it, expansion is untouched, and the selection stays duplicate-free and at most one value in single mode |
| FilterPillContainer.Container.ToggleExpanded | app/src/components/FilterPillContainer.tsx:47-49 | toggling flips isExpanded and leaves the selection alone |
| FilterPillContainer.Container.VisibleOptions | app/src/components/FilterPillContainer.tsx:71-83 | every option is listed, in order and marked selected iff its value is selected, while expanded; none while collapsed |
| MedicationAssistant.Settled | app/src/components/MedicationAssistant.tsx:55-133 | after a send the input is empty and loading has ended; blocks and context start with the old ones plus the user's block and item; then come the response's blocks and context on success, or the apology block alone and no further context on failure |
| MedicationAssistant.Assistant.constructor | app/src/components/MedicationAssistant.tsx:18-21 | a fresh panel has no blocks, no text, no context and is not loading |
| MedicationAssistant.Assistant.Restore | app/src/components/MedicationAssistant.tsx:25-38 | a saved state that parses replaces each field, or its default when the field is missing; nothing saved or unparsable text leaves the state as it was |
| MedicationAssistant.Assistant.Type | app/src/components/MedicationAssistant.tsx:19 | typing sets the message text and changes nothing else |
| MedicationAssistant.Assistant.HandleNewChat | app/src/components/MedicationAssistant.tsx:46-53 | Clear empties blocks, text and context, ends loading and removes the storage key |
| MedicationAssistant.Assistant.BeginSend | app/src/components/MedicationAssistant.tsx:55-91 | a blank message sends nothing and changes nothing; otherwise the request holds the trimmed text and the context from before this message, the user block and item are appended, the input is cleared, loading starts and the state is saved |
| MedicationAssistant.Assistant.Settle | app/src/components/MedicationAssistant.tsx:93-133 | once the request settles, blocks (and on success the context) are rebuilt from those captured at send time, the state Settled(...) is saved and loading ends on either path |
| MedicationAssistant.Assistant.HandleSend | app/src/components/MedicationAssistant.tsx:55-135 | a blank message changes nothing; otherwise the request carries the trimmed text and the earlier context, and the panel ends in Settled of the state before the send, which is also what is stored |
| MedicationAssistant.Assistant.HandleKeyPress | app/src/components/MedicationAssistant.tsx:137-142 | Enter without Shift sends by the same rule: a blank message changes nothing, any other ends in Settled(...) of the state before it, which is also what is stored; any other key, Shift+Enter included, changes nothing |
| MedicationAssistant.SendExtends | app/src/components/MedicationAssistant.tsx:70-120 | a send never loses history: the old blocks and context are prefixes of the new ones |
| MedicationAssistant.FailureKeepsUserItem | app/src/components/MedicationAssistant.tsx:96-128 | on failure the context gains only the user's item, as on a success whose response brings no context |
| SearchBar.Submitted | app/src/components/SearchBar.tsx:20-25 | nothing is searched iff the query is blank; otherwise the search text is non-empty and starts and ends with a non-space |
| SearchBar.SubmittedSlice | app/src/components/SearchBar.tsx:22-23 | the search text is the query with its blank margins cut off and nothing else changed |
| SearchBar.VerbatimQuery | app/src/components/SearchBar.tsx:22-23 | a query without blank margins, special characters and all, is searched for verbatim |
| SearchBar.SubmitTrimmed | app/src/components/SearchBar.tsx:22-23 | searching again for what was searched gives the same search |
| SearchBar.Bar.constructor | app/src/components/SearchBar.tsx:15-18 | the query starts at initialValue, "" when not given |
| SearchBar.Bar.Change | app/src/components/SearchBar.tsx:18 | typing sets the query |
| SearchBar.Bar.HandleSubmit | app/src/components/SearchBar.tsx:20-25 | submitting calls onSearch with Submitted(query), if anything, and does not clear the query |
| SearchBar.Bar.HandleKeyPress | app/src/components/SearchBar.tsx:27-31 | Enter submits by the same rule; any other key searches nothing |
| UrlParams.Get | app/src/app/page.tsx:21-117 | `get(name)` is absent iff no pair has that name, and otherwise is the value of a pair with that name |
| UrlParams.Without | app/src/app/page.tsx:103-107 | removing a set of names keeps only pairs of the input whose name is not in the set |
| UrlParams.Delete | app/src/app/page.tsx:105 | `delete(name)` leaves no pair with that name |
| UrlParams.WithoutCount | app/src/app/page.tsx:105 | after removing a set of names, no pair carries any of them |
| UrlParams.Set | app/src/app/page.tsx:112-119 | `set(name, value)` leaves exactly one pair with that name, holding the value; pairs with other names are untouched; with no such pair before, the pair is appended |
| UrlParams.SetFromCount | app/src/app/page.tsx:112-119 | the set pass keeps exactly one pair of the name, or none once the name was already written |
| UrlParams.SetFromGet | app/src/app/page.tsx:112-119 | after the set pass the name reads the new value |
| UrlParams.SetFromAppends | app/src/app/page.tsx:112-119 | with no pair of that name, the pair is appended at the end |
| UrlParams.SetFromWithout | app/src/app/page.tsx:112-119 | the set pass changes nothing outside the pairs of that name |
| UrlParams.Keep | app/src/app/page.tsx:100-122 | the pairs whose name passes a test, in order (a view used to state what an update keeps) |
| UrlParams.KeepAppend | app/src/app/page.tsx:100-122 | selecting pairs distributes over concatenation |
| UrlParams.KeepLast | app/src/app/page.tsx:100-122 | selecting from a list is selecting from all but its last pair, then the last pair if it passes |
| UrlParams.KeepWithout | app/src/app/page.tsx:103-107 | deleting names the selection rejects leaves the selected pairs as they were |
| UrlParams.KeepSetFrom | app/src/app/page.tsx:112-119 | the set pass for a name the selection rejects leaves the selected pairs as they were |
| UrlParams.KeepSet | app/src/app/page.tsx:112-119 | setting a name the selection rejects leaves the selected pairs as they were |
| UrlParams.GetKeep | app/src/app/page.tsx:117 | `get(name)` sees only pairs with that name, so a selection that keeps them keeps the answer |
| UrlParams.EncodeBytesSafe | app/src/app/page.tsx:122 | the serialiser's escaped bytes are ASCII and hold neither '&' nor '=' |
| UrlParams.EncodeComponent | app/src/app/page.tsx:122 | an escaped name or value is ASCII and holds neither '&' nor '=' |
| UrlParams.EncodeBytesAppend | app/src/app/page.tsx:122 | byte escaping distributes over concatenation |
| UrlParams.EncodeComponentAppend | app/src/app/page.tsx:122 | names and values are escaped character by character |
| UrlParams.EncodeUnreservedBytes | app/src/app/page.tsx:122 | unreserved bytes are written as they are |
| UrlParams.EncodeUnreserved | app/src/app/page.tsx:122 | letters, digits and * - . _ pass through unescaped |
| UrlParams.EncodeSpace | app/src/components/ClickableSimplePill.tsx:22-24 | a space is written as '+' |
| UrlParams.EncodeAmpersand | app/src/components/ClickableSimplePill.tsx:22-24 | '&' is written as "%26" |
| UrlParams.SerializeOne | app/src/components/ClickableSimplePill.tsx:22-24 | `toString()` of a single pair is name=value, both escaped |
| UrlParams.DecodeEncodedByte | app/src/app/page.tsx:15-122 | the parser reads back each byte the serialiser escaped |
| UrlParams.PlusToSpaceKeeps | app/src/app/page.tsx:15-25 | bytes without '+' pass the '+'-to-space step unchanged |
| UrlParams.PlusToSpaceAppend | app/src/app/page.tsx:15-25 | the '+'-to-space step distributes over concatenation |
| UrlParams.DecodeEncodedBytes | app/src/app/page.tsx:15-122 | percent-decoding undoes byte escaping |
| UrlParams.Utf8OfAscii | app/src/app/page.tsx:15-122 | an ASCII text is its own UTF-8 encoding |
| UrlParams.DecodeEncodeComponent | app/src/app/page.tsx:15-122 | the parser reads back every name and value the serialiser wrote |
| UrlParams.SplitPairAt | app/src/app/page.tsx:15-25 | a piece splits at its first '=' into name and value |
| UrlParams.PairRoundTrip | app/src/app/page.tsx:15-122 | a written pair is non-empty, holds no '&', and splits into its escaped name and value |
| UrlParams.ParsePiecesOfPairs | app/src/app/page.tsx:15-122 | parsing the written pieces gives the pairs back in order |
| UrlParams.ParsePairText | app/src/app/page.tsx:15-122 | the parser reads one written pair back, then the rest |
| UrlParams.ParseSerialize | app/src/app/page.tsx:15-122 | parsing what `toString()` wrote gives the same pairs in the same order |
| SearchPage.PrefixedName | app/src/app/page.tsx:26-112 | filter_<category> is a filter name, and removing the prefix gives the category back |
| SearchPage.Lookup | app/src/app/page.tsx:28 | a key is absent iff no entry carries it |
| SearchPage.Assign | app/src/app/page.tsx:28 | `filters[key] = v`, with the object taken as an insertion-ordered map, makes the key read v; a new key goes last; an existing key keeps its place and the key order is unchanged |
| SearchPage.AssignOthers | app/src/app/page.tsx:28 | assigning one key leaves every other key's list as it was |
| SearchPage.AssignDistinct | app/src/app/page.tsx:28 | assigning keeps the keys distinct |
| SearchPage.NotBlankIsTrim | app/src/app/page.tsx:28 | a piece is kept exactly when `v.trim() !== ''` |
| SearchPage.NonBlank | app/src/app/page.tsx:28 | the filter keeps only non-blank pieces of the input and, when none is blank, all of them unchanged |
| SearchPage.NonBlankKeeps | app/src/app/page.tsx:28 | a non-blank piece is never dropped |
| SearchPage.ParseFilters | app/src/app/page.tsx:24-30 | the forEach over the URL's entries builds exactly FiltersOf(pairs) |
| SearchPage.FiltersDistinct | app/src/app/page.tsx:24-30 | the filters object never holds a key twice |
| SearchPage.LastValue | app/src/app/page.tsx:25-28 | the last value of a name is absent iff no pair has that name |
| SearchPage.FilterLookup | app/src/app/page.tsx:25-28 | a category is a filter iff some filter_<category> parameter is present, and its list is the non-blank comma pieces of the last such parameter |
| SearchPage.FiltersNonEmpty | app/src/app/page.tsx:25-38 | the filters object has a key iff the URL has at least one filter_ parameter |
| SearchPage.FetchFor | app/src/app/page.tsx:21-47 | the page searches iff q is non-empty or some filter_ parameter is present, with the query q or '' and the parsed filters; otherwise it lists all medications |
| SearchPage.Listing.constructor | app/src/app/page.tsx:12-14 | the listing starts empty, loading and without error |
| SearchPage.Listing.Load | app/src/app/page.tsx:18-55 | the fetch is FetchFor(URL); success stores its medications and clears the error; failure keeps the medications and sets 'Failed to load medications'; loading ends either way |
| SearchPage.Names | app/src/app/page.tsx:103 | `Array.from(params.keys())`: one name per pair, in order |
| SearchPage.RemoveStep | app/src/app/page.tsx:103-107 | one iteration of the removal loop deletes the key iff it is not q and starts with filter_ |
| SearchPage.RemoveFilterKeys | app/src/app/page.tsx:102-107 | the removal loop over a snapshot of the keys yields the parameters without their filter_ pairs |
| SearchPage.SetFilters | app/src/app/page.tsx:109-114 | the loop over the categories sets filter_<category> to the joined values for each non-empty category |
| SearchPage.UpdateUrlWithFilters | app/src/app/page.tsx:99-125 | the pushed URL is '/?' + the serialised parameters after removing filters, setting the new ones and setting q again when non-empty |
| SearchPage.AddFiltersKeep | app/src/app/page.tsx:109-114 | setting filters leaves every non-filter parameter as it was |
| SearchPage.StripFiltersKeep | app/src/app/page.tsx:102-107 | removing filters leaves every non-filter parameter as it was |
| SearchPage.UpdateKeepsOthers | app/src/app/page.tsx:99-125 | every parameter other than q and the filters survives the update, in its order |
| SearchPage.UpdateKeepsQuery | app/src/app/page.tsx:116-120 | q reads the same before and after the update |
| SearchPage.WrittenFrom | app/src/app/page.tsx:110-113 | every written pair is filter_<category> with that category's values joined by ',' |
| SearchPage.KeepNone | app/src/app/page.tsx:100-122 | a list none of whose names passes the selection selects nothing |
| SearchPage.StripFiltersNone | app/src/app/page.tsx:102-107 | after the removal loop no filter_ parameter is left |
| SearchPage.AddFiltersWrites | app/src/app/page.tsx:109-114 | on parameters without filters, setting the filters writes exactly the pairs for the non-empty categories, in entry order |
| SearchPage.UpdateWritesFilters | app/src/app/page.tsx:99-125 | after the update the filter_ pairs are exactly those written for the new filters |
| SearchPage.NonEmptyFrom | app/src/app/page.tsx:111 | the categories written are entries of the filters with a non-empty list |
| SearchPage.FiltersOfKeep | app/src/app/page.tsx:25-30 | the filters read from a URL depend only on its filter_ parameters |
| SearchPage.ValuesOfJoin | app/src/app/page.tsx:28-112 | splitting and filtering a comma-join of non-blank, comma-free values gives the values back |
| SearchPage.FiltersOfWritten | app/src/app/page.tsx:28-112 | reading back the written filter pairs gives the non-empty categories |
| SearchPage.FiltersOfWrittenLast | app/src/app/page.tsx:28-112 | the step of the previous lemma for a last category with a non-empty list |
| SearchPage.FilterRoundTrip | app/src/app/page.tsx:25-125 | reading back the URL an update pushes gives the new filters minus the empty categories, when categories are distinct and values non-blank and comma-free |
| TagService.OfCategory | app/src/services/tagService.ts:28-33 | a group holds only tags of the response, all of its category |
| TagService.FirstSeen | app/src/services/tagService.ts:26-33 | a category is listed iff some tag of the response carries it |
| TagService.IndexOf | app/src/services/tagService.ts:29 | `categoriesMap.has(c)` fails iff no group is for c; otherwise the index is the first group for c |
| TagService.Section | app/src/services/tagService.ts:39-46 | a section's id is the raw category and its name formatCategoryName(category); one option per tag, in order, with text and value both the tag name |
| TagService.FormatCategoryName | app/src/services/tagService.ts:56-67 | the five known keys map to their fixed labels; any other name that is not an Object.prototype member keeps its length, with only the first character upper-cased ('' stays '') |
| TagService.FetchTagsByCategory | app/src/services/tagService.ts:15-54 | the grouping loop and the conversion loop yield exactly Categories(response): a non-OK status or a failure is an error, otherwise one section per group |
| TagService.FirstSeenDistinct | app/src/services/tagService.ts:26-33 | no category opens two groups |
| TagService.OfUnseen | app/src/services/tagService.ts:28-33 | a category no tag carries has no tags |
| TagService.GroupedIsOfCategory | app/src/services/tagService.ts:26-47 | the groups are the categories in order of first appearance, each holding all and only the tags of that category, in response order |
| TagService.GroupedSeenCategory | app/src/services/tagService.ts:29-32 | a tag of a category already seen joins that category's group at its end |
| TagService.GroupedNewCategory | app/src/services/tagService.ts:29-32 | a tag of a new category opens a group of its own at the end |
| TagService.TagInOneSection | app/src/services/tagService.ts:26-33 | every fetched tag lies in a group iff that group is for its category |
| TagService.OfCategoryHas | app/src/services/tagService.ts:32 | every tag is in the group of its category |
| TagService.SectionExists | app/src/services/tagService.ts:26-47 | every fetched tag has a group for its category |
| TagService.NotOkFails | app/src/services/tagService.ts:19-21 | a non-OK status is always an error, whatever the body |
| TagsByCategory.ValidCategories | app/src/components/TagsByCategory.tsx:15-17 | a category is shown iff it is in categoryKeys and its tag list exists and is non-empty |
| TagsByCategory.Render | app/src/components/TagsByCategory.tsx:10-36 | nothing is rendered iff the map is null or no category of categoryKeys qualifies; otherwise the pills of the qualifying categories |
| TagsByCategory.PillMembership | app/src/components/TagsByCategory.tsx:25-33 | a pill is shown exactly for each tag of each shown category, carrying both its text and its category |
| TagsByCategory.PillsAppend | app/src/components/TagsByCategory.tsx:25-33 | pills follow category order, then tag order within a category |
| TagsByCategory.RenderedPills | app/src/components/TagsByCategory.tsx:15-33 | a pill is rendered iff its category is in categoryKeys and in the map and its text is in that category's list |
| TagsByCategory.PillCount | app/src/components/TagsByCategory.tsx:25-33 | there is one pill per tag of the shown categories |
| RenderBlocks.Kept | app/src/utils/renderBlocks.tsx:29-45 | the contents that produce a child are strings and nested blocks of the input, in order |
| RenderBlocks.Render | app/src/utils/renderBlocks.tsx:12-50 | a type outside the whitelist yields a div reading 'Invalid tag: <type>'; a whitelisted type yields an element of that tag with one child per kept content |
| RenderBlocks.RenderBlock | app/src/utils/renderBlocks.tsx:12-50 | the forEach that pushes one child per string or nested block yields Render(block) |
| RenderBlocks.RenderChildOf | app/src/utils/renderBlocks.tsx:30-40 | a string is pushed as is and a nested block as its rendering |
| RenderBlocks.KeptPrefix | app/src/utils/renderBlocks.tsx:29-45 | one more item of contents adds one child, unless it is invalid content |
| RenderBlocks.RenderAll | app/src/utils/renderBlocks.tsx:53-57 | renderBlocks yields one element per block, in the same order |
| RenderBlocks.RenderView | app/src/utils/renderBlocks.tsx:64-71 | a non-array prop renders 'Invalid blocks data'; an array renders RenderAll of its blocks |
| RenderBlocks.RenderRoundTrip | app/src/utils/renderBlocks.tsx:12-50 | a well-formed block renders into a tree that reads back as the block minus its dropped contents: tags, strings and nesting survive in order |
| RenderBlocks.KeptStrings | app/src/utils/renderBlocks.tsx:29-31 | the text children are the string contents, in order |
| RenderBlocks.StringsVerbatim | app/src/utils/renderBlocks.tsx:29-49 | string contents come out verbatim and in order as the text children of a whitelisted block |
| ProcessUnstructured.Close | worker/activities/process_unstructured_drug_information.py:45 | the lazy '.*?>' ends at a '>' of the text |
| ProcessUnstructured.CloseSpec | worker/activities/process_unstructured_drug_information.py:45 | the match ends at the first '>' with no newline before it; there is none iff every '>' has a newline before it |
| ProcessUnstructured.RemoveHtmlTags | worker/activities/process_unstructured_drug_information.py:41-46 | a non-string is returned unchanged; a string comes back with no closable '<'…'>' span left |
| ProcessUnstructured.CleanJsonHtml | worker/activities/process_unstructured_drug_information.py:48-60 | dict keys and list order and length are kept, and every scalar at any depth is rewritten by CleanLeaf: a string loses its tags, anything else becomes its JSON text |
| ProcessUnstructured.CleanLeaf | worker/activities/process_unstructured_drug_information.py:53-60 | a scalar becomes a string: a string with no closable tag left, None, a boolean or a number its json.dumps text |
| ProcessUnstructured.StripNoTag | worker/activities/process_unstructured_drug_information.py:45-46 | text with no closable span is left alone |
| ProcessUnstructured.SpanReplaced | worker/activities/process_unstructured_drug_information.py:45-46 | a span '<' t '>' not crossing a newline, after tag-free text, is replaced by exactly two newlines and scanning resumes after it |
| ProcessUnstructured.UnclosedSurvives | worker/activities/process_unstructured_drug_information.py:45-46 | a '<' with no later '>' on its line survives, and scanning goes on right after it |
| ProcessUnstructured.CloseAfter | worker/activities/process_unstructured_drug_information.py:45 | a span with no '>' or newline inside ends at its '>' |
| ProcessUnstructured.PlainPrefix | worker/activities/process_unstructured_drug_information.py:45-46 | text before the first '<' is kept as it is |
| ProcessUnstructured.NoTagPrefix | worker/activities/process_unstructured_drug_information.py:45-46 | prefixing tag-free text with '<'-free text keeps it tag-free |
| ProcessUnstructured.NoTagCons | worker/activities/process_unstructured_drug_information.py:45-46 | one more character in front keeps a text tag-free unless it is a '<' that can close |
| ProcessUnstructured.StripKeepsUnclosed | worker/activities/process_unstructured_drug_information.py:45-46 | stripping text with no closable '>' adds none |
| ProcessUnstructured.StripTagsNoTag | worker/activities/process_unstructured_drug_information.py:45-46 | no match survives the substitution |
| ProcessUnstructured.StripIdempotent | worker/activities/process_unstructured_drug_information.py:45-46 | stripping twice is stripping once |
| ProcessUnstructured.ActivityInput | worker/activities/process_unstructured_drug_information.py:62-65 | for the string the activity passes, the result is just that string stripped of its tags |
| DataCleanup.AsciiOnly | worker/scripts/data_cleanup.py:73 | only characters of the input with code point < 128 remain, in order; an all-ASCII text is unchanged |
| DataCleanup.CollapseWs | worker/scripts/data_cleanup.py:75 | `re.sub(r'\s+', ' ', s)` never lengthens the text |
| DataCleanup.CollapseShape | worker/scripts/data_cleanup.py:75 | every whitespace run becomes one space: the result is empty iff the input is, holds no two spaces in a row and no other whitespace, and adds no other character |
| DataCleanup.CollapseVisible | worker/scripts/data_cleanup.py:75 | collapsing whitespace keeps every visible character, in order |
| DataCleanup.SingleSpacedSlice | worker/scripts/data_cleanup.py:75 | a slice of single-spaced text is single-spaced |
| DataCleanup.TrimSingleSpaced | worker/scripts/data_cleanup.py:75 | stripping single-spaced text keeps it single-spaced, with no space at either end |
| DataCleanup.TrimAscii | worker/scripts/data_cleanup.py:73-75 | stripping ASCII text leaves ASCII text |
| DataCleanup.RemoveUnicodeShape | worker/scripts/data_cleanup.py:67-76 | the output is ASCII, stripped and single-spaced, and keeps in order every visible ASCII character of the input |
| DataCleanup.RemoveUnicodeFixed | worker/scripts/data_cleanup.py:67-76 | text already ASCII, stripped and single-spaced comes back unchanged |
| DataCleanup.CollapseFixed | worker/scripts/data_cleanup.py:75 | text whose only whitespace is single spaces is left unchanged by the collapse |
| DataCleanup.RemoveUnicodeCharacters | worker/scripts/data_cleanup.py:67-76 | a non-string is returned unchanged; a string comes back ASCII-only, stripped and single-spaced |
| DataCleanup.Clean | worker/scripts/data_cleanup.py:18-41 | a text node stays; `<a>` becomes one plain text node; a tag that is neither a link nor a wrapper stays as that tag without attributes, or goes |
| DataCleanup.CleanedParts | worker/scripts/data_cleanup.py:23-24 | the children are cleaned one by one, in order, before their parent |
| DataCleanup.CleanIsCleaned | worker/scripts/data_cleanup.py:18-41 | no attribute, link, wrapper with content or effectively empty tag remains anywhere in what cleaning leaves |
| DataCleanup.CleanAddsNoTag | worker/scripts/data_cleanup.py:18-41 | cleaning introduces no tag name that was not in the input |
| DataCleanup.VisibleConcat | worker/scripts/data_cleanup.py:31 | texts whose visible characters agree pairwise concatenate to texts that agree |
| DataCleanup.VisibleTextOfBlank | worker/scripts/data_cleanup.py:7-16 | nodes whose text is blank have blank text together |
| DataCleanup.EmptyInvisible | worker/scripts/data_cleanup.py:7-16 | an effectively empty tag holds no visible text |
| DataCleanup.CleanChildrenKeepText | worker/scripts/data_cleanup.py:23-24 | a tag's cleaned children read as its children did, up to whitespace |
| DataCleanup.CleanKeepsText | worker/scripts/data_cleanup.py:18-41 | cleaning loses no visible text: links, unwrapped wrappers and removed empty tags leave what get_text() reads unchanged up to whitespace |
| DataCleanup.ConsLines | worker/scripts/data_cleanup.py:61 | one more character in front keeps a text free of blank lines |
| DataCleanup.SuffixLines | worker/scripts/data_cleanup.py:61-63 | a suffix of a text with no blank line has none either |
| DataCleanup.SliceNoBlankLine | worker/scripts/data_cleanup.py:61-63 | a slice of a text with no blank line has none either |
| DataCleanup.LastNewline | worker/scripts/data_cleanup.py:61 | the position of the last newline of a text, or none when it has no newline |
| DataCleanup.AfterBlankLead | worker/scripts/data_cleanup.py:61 | after a replaced blank run, no newline comes before the next visible character |
| DataCleanup.BlankLinesShape | worker/scripts/data_cleanup.py:61 | after `re.sub(r'\n\s*\n', '\n', t)` no blank line survives, and a text without a leading blank line does not get one |
| DataCleanup.BlankLinesVisible | worker/scripts/data_cleanup.py:61 | that substitution removes whitespace only |
| DataCleanup.AfterBlankVisible | worker/scripts/data_cleanup.py:61 | what a replaced run drops is whitespace |
| DataCleanup.CollapseLines | worker/scripts/data_cleanup.py:62 | collapsing runs of spaces and tabs keeps a text free of blank lines |
| DataCleanup.TidiedShape | worker/scripts/data_cleanup.py:58-63 | the three clean-up steps leave a stripped text without blank lines, tabs or double spaces that reads as the serialised tree did, up to whitespace |
| DataCleanup.TrimKeepsTidy | worker/scripts/data_cleanup.py:63 | the final strip keeps the text tidy |
| DataCleanup.TrimKeepsSpacing | worker/scripts/data_cleanup.py:63 | the final strip adds no tab and no double space |
| DataCleanup.TrimKeepsLines | worker/scripts/data_cleanup.py:63 | the final strip adds no blank line |
| DataCleanup.TidyWithoutSpace | worker/scripts/data_cleanup.py:93 | text without whitespace is tidy |
| DataCleanup.CleanSoup | worker/scripts/data_cleanup.py:49-56 | the cleaned soup is still the document root, without attributes |
| DataCleanup.CleanSoupClean | worker/scripts/data_cleanup.py:53-56 | the cleaned soup holds no script or style and every node in it is clean |
| DataCleanup.CleanSoupText | worker/scripts/data_cleanup.py:53-56 | the cleaned soup reads as the parsed document without its scripts and styles, up to whitespace |
| DataCleanup.RemoveHtmlTags | worker/scripts/data_cleanup.py:43-65 | a non-string is returned unchanged; a string comes back tidy and reading as the serialised cleaned soup, up to whitespace |
| DataCleanup.CleanLeaf | worker/scripts/data_cleanup.py:87-93 | a scalar becomes a tidy string; a string is filtered to ASCII first and then cleaned of markup |
| DataCleanup.DumpTidy | worker/scripts/data_cleanup.py:93 | the JSON text of a non-string scalar is tidy |
| DataCleanup.CleanJsonHtml | worker/scripts/data_cleanup.py:78-93 | every dict keeps its keys in order and every list its length, every scalar at any depth is rewritten by CleanLeaf, so every leaf becomes a tidy string |
| Html.Document | worker/scripts/data_cleanup.py:49 | the soup is a root tag holding the parsed top-level nodes |
| Html.GetTextChildren | worker/scripts/data_cleanup.py:31 | a tag's get_text() is its children's text, in order |
| Html.TextOfAppend | worker/scripts/data_cleanup.py:31 | the text of two runs of siblings is their texts one after the other |
| Html.TextOfFlatten | worker/scripts/data_cleanup.py:31 | the text of a flattened list is the text of each part, in order |
| Html.Descendants | worker/scripts/data_structure.py:123 | find_all() yields tags only |
| Html.HasTagDescendants | worker/scripts/data_structure.py:120-123 | soup.find() finds a tag iff find_all() is non-empty |
| Html.Decompose | worker/scripts/data_cleanup.py:53-54 | decomposing keeps the root's name and attributes and leaves text nodes alone |
| Html.KeepUnnamed | worker/scripts/data_cleanup.py:53-54 | the children that stay are children that are not tags with those names |
| Html.DecomposeRemoves | worker/scripts/data_cleanup.py:53-54 | after decomposing, no tag with those names is left below the root |
| FixHtml.WrapOrphans | worker/scripts/fix_html_syntax.py:14-49 | a text node stays; an orphan target tag is replaced by one new wrapper tag, without attributes, holding it |
| FixHtml.WrapOrphansWraps | worker/scripts/fix_html_syntax.py:14-49 | after the loop no target tag lacks the required ancestor |
| FixHtml.WrapOrphansNoOrphan | worker/scripts/fix_html_syntax.py:18-44 | a tag that already has the required ancestor is not wrapped: with no orphan the loop changes nothing |
| FixHtml.WrapOrphansKeeps | worker/scripts/fix_html_syntax.py:14-49 | a wrapper that is not itself checked keeps another kind of orphan check satisfied |
| FixHtml.AllWrappedMonotone | worker/scripts/fix_html_syntax.py:18-44 | having the ancestor above only helps |
| FixHtml.FixCells | worker/scripts/fix_html_syntax.py:25-38 | the td/th loop leaves text nodes alone |
| FixHtml.FixCellsWraps | worker/scripts/fix_html_syntax.py:25-38 | after the td/th loop every td and th has a tr ancestor |
| FixHtml.FixCellsKeepsRows | worker/scripts/fix_html_syntax.py:32-37 | a tr the td/th loop creates is placed in a new table when it has no table ancestor, so every tr keeps a table ancestor |
| FixHtml.FixCellsNoOrphan | worker/scripts/fix_html_syntax.py:29 | a cell that already has a tr ancestor is not wrapped |
| FixHtml.FixListsKeeps | worker/scripts/fix_html_syntax.py:40-49 | the li loop keeps the row and cell repairs |
| FixHtml.FixTreeRepairs | worker/scripts/fix_html_syntax.py:14-49 | afterwards every tr has a table ancestor, every td/th a tr, and every li a ul or ol |
| FixHtml.FixTreeNoOrphan | worker/scripts/fix_html_syntax.py:18-44 | a soup without orphans of any kind comes through unchanged |
| FixHtml.WrapperText | worker/scripts/fix_html_syntax.py:22-48 | wrapping a node adds no text |
| FixHtml.SameTexts | worker/scripts/fix_html_syntax.py:14-49 | two sibling lists whose nodes read the same read the same |
| FixHtml.WrapOrphansText | worker/scripts/fix_html_syntax.py:14-49 | the wrapping loops change no text |
| FixHtml.FixCellsText | worker/scripts/fix_html_syntax.py:25-38 | the td/th loop changes no text |
| FixHtml.FixTreeText | worker/scripts/fix_html_syntax.py:11-49 | the repaired soup reads exactly as the parsed one |
| FixHtml.FixLeaf | worker/scripts/fix_html_syntax.py:3-55 | a non-string is returned unchanged; a string becomes the serialisation of its parsed and repaired soup |
| FixHtml.FixHtmlSyntax | worker/scripts/fix_html_syntax.py:57-70 | dict keys and list order and length are kept, and every scalar at any depth is rewritten by FixLeaf: a string becomes FixHtmlText of itself, any other scalar is unchanged |
| StructureJson.Spliced | worker/scripts/structure_json_html.py:30-37 | a missing child adds nothing and a non-list child adds itself |
| StructureJson.ParseElement | worker/scripts/structure_json_html.py:3-39 | a text node yields nothing iff it is a comment or blank, and otherwise its stripped text; a tag yields {type: name, contents: [...]} with exactly those two keys |
| StructureJson.ParseElementLoop | worker/scripts/structure_json_html.py:3-39 | the append/extend loop builds exactly ParseElement(node) |
| StructureJson.ParseElementParsed | worker/scripts/structure_json_html.py:23-39 | every parse result is well formed: tags as {type, contents} objects, texts stripped and non-blank, contents never holding a list |
| StructureJson.Kept | worker/scripts/structure_json_html.py:29-37 | the contents of a tag are no more than its children's results |
| StructureJson.ContentsKept | worker/scripts/structure_json_html.py:29-37 | the contents are each child's result in order, list results spliced in and missing results dropped |
| StructureJson.ParseString | worker/scripts/structure_json_html.py:71-91 | a string the parser rejects stays the string; otherwise it becomes the parsed document root |
| StructureJson.Put | worker/scripts/structure_json_html.py:54-94 | `result[key] = v` appends a new key at the end |
| StructureJson.PutGet | worker/scripts/structure_json_html.py:54-94 | after `result[key] = v` the key reads v and every other key reads as before |
| StructureJson.PutKeys | worker/scripts/structure_json_html.py:54-94 | assigning an existing key keeps the key order |
| StructureJson.PutInPlace | worker/scripts/structure_json_html.py:54-94 | assigning an existing key keeps the length and the key at every position |
| StructureJson.PutAllDistinct | worker/scripts/structure_json_html.py:49-96 | filling a dict from pairs with distinct keys gives those pairs, in order |
| StructureJson.StructureJsonHtml | worker/scripts/structure_json_html.py:41-96 | a non-dict input is returned unchanged; a dict gives a dict |
| StructureJson.StructureValue | worker/scripts/structure_json_html.py:51-94 | drugName, setId, slug and labeler are copied verbatim, and the five label fields when they are strings; any other string becomes a one-element list holding its parse; lists keep their length; dicts stay dicts; numbers, booleans and None are kept |
| StructureJson.StructureItem | worker/scripts/structure_json_html.py:68-80 | within a list a string becomes its parse, a dict stays a dict, and anything else is kept |
| StructureJson.StructureKeys | worker/scripts/structure_json_html.py:49-96 | the result has the input's keys in order, each holding StructureValue of its value |
| StructureJson.StructureKeepsIds | worker/scripts/structure_json_html.py:53-60 | a verbatim field is copied unchanged, at its position |
| StructureJson.ParseStringLoop | worker/scripts/structure_json_html.py:73-91 | the try/except around the parser yields ParseString |
| StructureJson.StructureJsonHtmlLoop | worker/scripts/structure_json_html.py:41-96 | the loop over the items fills exactly StructureJsonHtml(obj) |
| StructureJson.StructureValueLoop | worker/scripts/structure_json_html.py:52-94 | the per-key branches yield StructureValue |
| StructureJson.StructureListLoop | worker/scripts/structure_json_html.py:66-81 | the list loop yields StructureItem of each item, in order |
| DataStructure.TextItem | worker/scripts/data_structure.py:7-16 | a text item is an object with exactly the keys type and text, in that order |
| DataStructure.Named | worker/scripts/data_structure.py:28-57 | `find_all(names, recursive=False)` yields tags only, no more than the children |
| DataStructure.NamedExact | worker/scripts/data_structure.py:28-57 | it yields exactly the direct children that are tags with one of those names |
| DataStructure.ListItems | worker/scripts/data_structure.py:26-43 | ol and ul yield the stripped text of each direct li child, in order |
| DataStructure.CellContent | worker/scripts/data_structure.py:59-79 | a cell's content is the list structure_json_html gives for the cell's markup |
| DataStructure.Cells | worker/scripts/data_structure.py:57-83 | a row has one cell per direct td or th child |
| DataStructure.TableRows | worker/scripts/data_structure.py:55-68 | a table keeps only direct tr children, each with at least one direct td/th cell |
| DataStructure.ParseHtmlElement | worker/scripts/data_structure.py:4-108 | every node yields an object whose first key is type, holding a string, and which has exactly two keys |
| DataStructure.ParseTag | worker/scripts/data_structure.py:9-108 | every tag yields an object whose first key is type and which has exactly two keys |
| DataStructure.ParseTextNode | worker/scripts/data_structure.py:6-7 | a non-tag node becomes {type: text, text: its string} |
| DataStructure.ParseHeader | worker/scripts/data_structure.py:9-16 | a tag is a header iff its lower-cased name is 'h' followed by one ASCII digit |
| DataStructure.ParseTextTag | worker/scripts/data_structure.py:19-108 | p, li, th, td and unknown tags yield their stripped text under their type name |
| DataStructure.KeepWorth | worker/scripts/data_structure.py:127-133 | the filter keeps no more elements than it was given |
| DataStructure.KeepWorthExact | worker/scripts/data_structure.py:127-133 | an element is kept iff it has non-blank text or non-empty items, rows or content |
| DataStructure.ParsedElements | worker/scripts/data_structure.py:124-126 | one parsed element per tag of `find_all()` |
| DataStructure.StrippedTextWorth | worker/scripts/data_structure.py:136-137 | the fallback item built from non-blank stripped text is worth keeping |
| DataStructure.StructureString | worker/scripts/data_structure.py:115-139 | a string always yields a non-empty list; a string without tags yields [{type: text, text: the original}] |
| DataStructure.Fallback | worker/scripts/data_structure.py:135-139 | the list is never empty, and is the kept elements when there are any |
| DataStructure.StructureStringWorth | worker/scripts/data_structure.py:115-139 | every item is worth keeping, or is the original string as a text item |
| DataStructure.StructureJsonHtml | worker/scripts/data_structure.py:110-141 | dicts and lists keep their shape, strings are structured, and other scalars become their JSON text |
| DataStructure.ListItemsLoop | worker/scripts/data_structure.py:27-39 | the append loop yields ListItems |
| DataStructure.CellsLoop | worker/scripts/data_structure.py:56-83 | the cell loop yields Cells |
| DataStructure.TableRowsLoop | worker/scripts/data_structure.py:54-68 | the row loop yields TableRows of the direct tr children |
| DataStructure.ParseHtmlElementLoop | worker/scripts/data_structure.py:4-108 | the branches with their loops yield ParseHtmlElement |
| DataStructure.KeepWorthPrefix | worker/scripts/data_structure.py:125-133 | one more element is appended iff it is worth keeping |
| DataStructure.KeepWorthLoop | worker/scripts/data_structure.py:124-133 | the filtering loop yields KeepWorth of the parsed elements |
| DataStructure.StructureStringLoop | worker/scripts/data_structure.py:115-139 | the string branch with its loop yields StructureString |
| PrepareItem.Line | worker/scripts/prepare_item_for_chromadb.py:38-49 | a blank or whitespace-only text adds nothing to the extraction |
| PrepareItem.ExtractLoop | worker/scripts/prepare_item_for_chromadb.py:31-51 | the `result +=` loop over the children computes exactly the recursive extraction: each child's piece, in order |
| PrepareItem.PieceLoop | worker/scripts/prepare_item_for_chromadb.py:35-49 | one child adds its stripped text as a line (if non-blank), and a tag then adds its own extraction |
| PrepareItem.NestedTextRepeats | worker/scripts/prepare_item_for_chromadb.py:36-44 | a word inside a tag inside a tag is emitted three times: once per enclosing tag and once for the text node |
| PrepareItem.KeptLines | worker/scripts/prepare_item_for_chromadb.py:57 | filtering and stripping the lines never produces more lines than it was given |
| PrepareItem.KeptLinesTidy | worker/scripts/prepare_item_for_chromadb.py:57 | every kept line is non-empty and has no whitespace at either end |
| PrepareItem.KeptLinesFixed | worker/scripts/prepare_item_for_chromadb.py:57 | lines that are already tidy are kept unchanged |
| PrepareItem.TidyLinesShape | worker/scripts/prepare_item_for_chromadb.py:57 | the cleaned text is empty or every one of its lines is non-empty and stripped |
| PrepareItem.TidyLinesIdempotent | worker/scripts/prepare_item_for_chromadb.py:57 | cleaning the lines a second time changes nothing |
| PrepareItem.TidyEmpty | worker/scripts/prepare_item_for_chromadb.py:57-59 | the cleaning of an empty extraction is empty, so the original string is kept |
| PrepareItem.Soup | worker/scripts/prepare_item_for_chromadb.py:21-25 | the parsed string is a document (a tag node) whatever the parser gives |
| PrepareItem.PrepareString | worker/scripts/prepare_item_for_chromadb.py:19-59 | a string without tags, or whose cleaned extraction is empty, comes back unchanged; a string with a tag whose cleaned extraction is non-empty becomes exactly that extraction (`processed_text if processed_text else obj`) |
| PrepareItem.PrepareStringTidy | worker/scripts/prepare_item_for_chromadb.py:57-59 | a string that was rewritten consists of non-empty stripped lines |
| PrepareItem.PrepareLeaf | worker/scripts/prepare_item_for_chromadb.py:19-61 | every leaf value becomes a string |
| PrepareItem.PrepareItem | worker/scripts/prepare_item_for_chromadb.py:15-61 | objects and lists keep their keys, order and length, and every scalar at any depth is rewritten by PrepareLeaf: strings are prepared; null, booleans and numbers become their json.dumps text |
| UpsertPostgres.FormatDate | worker/scripts/upsert_items_to_postgres.py:79-84 | a falsy value gives ''; the result is a non-empty date exactly when the raw value is an eight-digit string, and it then has the form YYYY-MM-DD; a string never raises |
| UpsertPostgres.FormatDateRoundTrip | worker/scripts/upsert_items_to_postgres.py:81-82 | removing the two dashes from a formatted date gives back the original eight digits |
| UpsertPostgres.LabelerName | worker/scripts/upsert_items_to_postgres.py:40-65 | only a dict item has a labeler, which is a hashable value; a dict without one is labelled 'Unknown' |
| UpsertPostgres.LabelerNamesMembers | worker/scripts/upsert_items_to_postgres.py:38-41 | collecting the labelers succeeds exactly when every item has one, and the names collected are exactly the items' labelers |
| UpsertPostgres.BuildRow | worker/scripts/upsert_items_to_postgres.py:58-181 | a built row carries the structured item's labeler, which is a string, the vector-ready item's non-null setId as its key, and every label section; a labeler that is not a string makes the row raise |
| UpsertPostgres.DictAt | worker/scripts/upsert_items_to_postgres.py:77-108 | a nested dict lookup succeeds exactly when the key is present and holds a dict |
| UpsertPostgres.MakeRow | worker/scripts/upsert_items_to_postgres.py:75-181 | the row carries the given key, labeler and date, and one column per label section |
| UpsertPostgres.Pairs | worker/scripts/upsert_items_to_postgres.py:58-60 | the loop visits one pair per structured item |
| UpsertPostgres.RowsPairing | worker/scripts/upsert_items_to_postgres.py:58-60 | building the rows succeeds exactly when there are enough vector-ready items and every pair succeeds; row i is then built from structured item i and vector-ready item i |
| UpsertPostgres.RowsFail | worker/scripts/upsert_items_to_postgres.py:58-196 | one pair that raises, or a missing vector-ready item, fails the whole batch |
| UpsertPostgres.NonTextLabelerFails | worker/scripts/upsert_items_to_postgres.py:64-72 | a structured item whose labeler is null, a number or a boolean fails the whole batch: the labeler lookup finds no row or is an SQL error |
| UpsertPostgres.NullLabelerBatch | worker/scripts/upsert_items_to_postgres.py:64-72 | a pair of otherwise complete items whose labeler is null raises at `labeler_result['id']` |
| UpsertPostgres.RowsTextLabelers | worker/scripts/upsert_items_to_postgres.py:64-72 | a batch that goes through names a string labeler in every structured item |
| UpsertPostgres.RowsStep | worker/scripts/upsert_items_to_postgres.py:58-181 | one more successful pair appends its row |
| UpsertPostgres.UpsertedStep | worker/scripts/upsert_items_to_postgres.py:122-148 | upserting one more row replaces the entry for its id and changes nothing else |
| UpsertPostgres.UpsertedKeys | worker/scripts/upsert_items_to_postgres.py:111-148 | after the upserts the table holds exactly the old ids and the rows' ids |
| UpsertPostgres.UpsertedLatest | worker/scripts/upsert_items_to_postgres.py:122-148 | for a repeated id, the last row with that id wins |
| UpsertPostgres.UpsertedUntouched | worker/scripts/upsert_items_to_postgres.py:122-148 | an id that no row uses keeps its old row |
| UpsertPostgres.Database.constructor | worker/scripts/upsert_items_to_postgres.py:31 | a fresh database has empty tables and a labeler sequence that starts at 1 |
| UpsertPostgres.Database.InsertLabeler | worker/scripts/upsert_items_to_postgres.py:46-53 | the serial default draws the next sequence value either way; a new name gets it as its id; a known name is left alone; the drugs table is not touched |
| UpsertPostgres.Database.InsertLabelers | worker/scripts/upsert_items_to_postgres.py:52-53 | the inserts run as statements 0 to n - 1 and go through exactly when none of them fails; then every name in the set has an id; either way old ids are unchanged, the sequence only advances, and the drugs table is not touched |
| UpsertPostgres.Database.InsertInOrder | worker/scripts/upsert_items_to_postgres.py:52-53 | inserting the first count names of the iteration order gives ids to exactly those names besides the old ones, keeps old ids, and draws one sequence value per insert |
| UpsertPostgres.IterationOrder | worker/scripts/upsert_items_to_postgres.py:52 | a loop over the set visits each of its elements exactly once |
| UpsertPostgres.Database.UpsertRow | worker/scripts/upsert_items_to_postgres.py:58-181 | one pass builds the row, and on success inserts or replaces it under its id with its labeler's id; on failure the table is unchanged |
| UpsertPostgres.Database.UpsertRows | worker/scripts/upsert_items_to_postgres.py:58-181 | pair i runs the SELECT and the INSERT as statements base + 2i and base + 2i + 1; the loop succeeds exactly when building every row succeeds and none of those statements fails, and then the table is the old one with every row upserted in order |
| UpsertPostgres.Database.RunStatements | worker/scripts/upsert_items_to_postgres.py:37-181 | the statements before the commit go through exactly when every row builds and no execute among the labeler inserts and the per-item SELECT and INSERT fails; then every named labeler has an id and every row is upserted; old labeler ids are kept either way |
| UpsertPostgres.Database.Upsert | worker/scripts/upsert_items_to_postgres.py:10-196 | the transaction commits exactly when no step raises and psycopg2 raises no error at connect, at any execute or at commit, so never when a labeler is not a string; a failed connect changes nothing at all; on commit every named labeler has an id, old ids are kept and every row is upserted; on rollback both tables are as they were while the sequence keeps the values it gave out |
| UpsertPostgres.CollectLabelers | worker/scripts/upsert_items_to_postgres.py:38-41 | the loop gives the set of the items' labelers, or fails exactly when one of them raises |
| UpsertElasticsearch.MappingCoversDoc | worker/scripts/upsert_items_to_elasticsearch.py:44-150 | the index mapping declares exactly the document's fields, in the same order |
| UpsertElasticsearch.AiFieldsDuplicate | worker/scripts/upsert_items_to_elasticsearch.py:119-142 | each ai_* field is read from the same item key as its plain counterpart (warnings, dosing, useAndConditions, contraIndications, description) |
| UpsertElasticsearch.GetSafeTags | worker/scripts/upsert_items_to_elasticsearch.py:99-103 | the result is never None; a field that is not a dict gives []; for a dict the result is [] exactly when tags is missing, None or already [], and otherwise it is the tags value itself |
| UpsertElasticsearch.LabelOf | worker/scripts/upsert_items_to_elasticsearch.py:115 | the label is found exactly when item['label'] is present and is a dict |
| UpsertElasticsearch.DocBuilds | worker/scripts/upsert_items_to_elasticsearch.py:108-150 | a document is built exactly when the item is a dict with a drugName and a dict label; otherwise the item raises |
| UpsertElasticsearch.DocKeys | worker/scripts/upsert_items_to_elasticsearch.py:111-150 | a built document has the mapping's fields, in the mapping's order |
| UpsertElasticsearch.DocLabeler | worker/scripts/upsert_items_to_elasticsearch.py:148 | a document's labeler is the item's labeler, or 'Unknown' when it has none |
| UpsertElasticsearch.StepMeaning | worker/scripts/upsert_items_to_elasticsearch.py:107-165 | an item raises exactly when its document cannot be built; otherwise it is indexed exactly when its setId is truthy, under that setId with its document |
| UpsertElasticsearch.Apply | worker/scripts/upsert_items_to_elasticsearch.py:106-165 | the loop never counts more documents than there are items |
| UpsertElasticsearch.ApplyStops | worker/scripts/upsert_items_to_elasticsearch.py:107-173 | once an item raises, the items after it change nothing |
| UpsertElasticsearch.ApplyFails | worker/scripts/upsert_items_to_elasticsearch.py:107-173 | the first item that raises ends the loop; what was indexed before it stays |
| UpsertElasticsearch.ApplyStep | worker/scripts/upsert_items_to_elasticsearch.py:153-165 | an item that does not raise either stores its document under its id and adds one to the count, or changes nothing |
| UpsertElasticsearch.CountIndexed | worker/scripts/upsert_items_to_elasticsearch.py:162 | the number of indexed items is at most the number of items |
| UpsertElasticsearch.ApplyComplete | worker/scripts/upsert_items_to_elasticsearch.py:106-169 | when no item raises, the loop finishes, total_items counts exactly the indexed items, and the index holds the old ids plus theirs |
| UpsertElasticsearch.ApplyLatest | worker/scripts/upsert_items_to_elasticsearch.py:156-161 | an id holds the document of the last item indexed under it (op_type index replaces) |
| UpsertElasticsearch.StepApplied | worker/scripts/upsert_items_to_elasticsearch.py:153-165 | one loop pass, stated against the loop specification, for the step of the item |
| UpsertElasticsearch.Cluster.constructor | worker/scripts/upsert_items_to_elasticsearch.py:28-32 | a cluster starts with its reachability given, no index and no documents |
| UpsertElasticsearch.Cluster.CreateIndex | worker/scripts/upsert_items_to_elasticsearch.py:93 | the index exists afterwards with the mapping, one shard, no replicas and no documents |
| UpsertElasticsearch.Cluster.IndexItem | worker/scripts/upsert_items_to_elasticsearch.py:108-165 | one pass builds the document and stores it under a truthy setId; it raises exactly when the document cannot be built or the `es.index` call for it fails, and then, as with a missing setId, the documents are unchanged |
| UpsertElasticsearch.Cluster.IndexNext | worker/scripts/upsert_items_to_elasticsearch.py:107-165 | after pass i either the items up to i are done and the failing `es.index` call, if any, is still ahead, or item i raised, at its document or at its `es.index` call, and the run's outcome for all items is settled |
| UpsertElasticsearch.Cluster.UpsertItems | worker/scripts/upsert_items_to_elasticsearch.py:10-173 | an unreachable cluster, a failing `indices.exists`, or a failing `indices.create` of a missing index leaves the cluster alone; otherwise the index exists (created with the mapping when missing), and its documents, total and completion are those Outcome gives: a failing `es.index` stops the loop keeping what was indexed before it, and a failing refresh keeps every document but does not complete |
| UpsertElasticsearch.OutcomeMeaning | worker/scripts/upsert_items_to_elasticsearch.py:153-173 | a failing `es.index` leaves exactly the documents indexed before its item, one store short of the pass that would have gone through, and the run does not complete; with no fault in the loop or the refresh the outcome is the loop's; a failing refresh keeps the loop's documents and does not complete |
| UpsertElasticsearch.RaiseNoHit | worker/scripts/upsert_items_to_elasticsearch.py:107-165 | an item that raises before the failing `es.index` call is reached means that call never happens |
| UpsertChroma.Parts | worker/scripts/upsert_to_chromadb.py:49-66 | the document has one piece per label field plus one for the highlights' dosageAndAdministration: sixteen |
| UpsertChroma.PartMissing | worker/scripts/upsert_to_chromadb.py:50-65 | a field the label does not have contributes an empty piece |
| UpsertChroma.PartNone | worker/scripts/upsert_to_chromadb.py:50-65 | a field that holds None contributes the text None |
| UpsertChroma.PartString | worker/scripts/upsert_to_chromadb.py:50-65 | a field that holds a string contributes that string stripped |
| UpsertChroma.DocumentSplit | worker/scripts/upsert_to_chromadb.py:49 | when no piece holds a space, splitting the document at spaces gives back the sixteen pieces |
| UpsertChroma.GetAppend | worker/scripts/upsert_to_chromadb.py:69-91 | a key looked up in metadata written in two parts is found in the first part if it is there, else in the second |
| UpsertChroma.LabelMetaGet | worker/scripts/upsert_to_chromadb.py:72-91 | the label part of the metadata holds exactly the listed keys whose label value is not None, each with that value |
| UpsertChroma.MetadataGet | worker/scripts/upsert_to_chromadb.py:69-91 | the metadata has item_id exactly when setId is not None, and each listed label key exactly when its value is not None, with that value |
| UpsertChroma.ItemIdNotLabelKey | worker/scripts/upsert_to_chromadb.py:71-87 | item_id is not one of the label keys, so the two parts never overwrite each other |
| UpsertChroma.MetadataOf | worker/scripts/upsert_to_chromadb.py:69-91 | the loop over the label keys builds exactly the metadata described above |
| UpsertChroma.EntryMeaning | worker/scripts/upsert_to_chromadb.py:47-95 | an item goes through exactly when it is a dict with a dict label, a dict or missing highlights, and a setId key; its id is str(setId) and its metadata is as above |
| UpsertChroma.Unzip | worker/scripts/upsert_to_chromadb.py:43-95 | the ids, documents and metadatas lists always have the same length, one entry per item |
| UpsertChroma.UnzipEntries | worker/scripts/upsert_to_chromadb.py:93-95 | position k of the three lists holds entry k |
| UpsertChroma.UnzipStep | worker/scripts/upsert_to_chromadb.py:93-95 | one more entry appends to each list |
| UpsertChroma.EntriesStep | worker/scripts/upsert_to_chromadb.py:47-95 | one more item that goes through adds its entry |
| UpsertChroma.EntryFails | worker/scripts/upsert_to_chromadb.py:47-95 | an item that raises leaves no batch at all |
| UpsertChroma.BatchOf | worker/scripts/upsert_to_chromadb.py:43-95 | a batch has aligned lists with one entry per item |
| UpsertChroma.BatchEntries | worker/scripts/upsert_to_chromadb.py:43-95 | the batch exists exactly when no item raises, and then entry k of the lists is item k's |
| UpsertChroma.EntryOf | worker/scripts/upsert_to_chromadb.py:49-95 | one pass of the loop computes the item's id, document and metadata, or fails where Python raises |
| UpsertChroma.AppendEntry | worker/scripts/upsert_to_chromadb.py:47-95 | either each list grows by item i's entry, or item i raises and the whole batch is gone |
| UpsertChroma.Prepare | worker/scripts/upsert_to_chromadb.py:43-95 | the loop over the items builds exactly the batch described above |
| UpsertChroma.OnLookupError | worker/scripts/upsert_to_chromadb.py:31-40 | the collection is created exactly when the error text says not found or does not exist, in any letter case; otherwise the error is re-raised |
| UpsertChroma.LowerTwice | worker/scripts/upsert_to_chromadb.py:34 | lower-casing twice is the same as lower-casing once |
| UpsertChroma.LookupIgnoresCase | worker/scripts/upsert_to_chromadb.py:34 | lower-casing the message first does not change the decision |
| UpsertChroma.ShortMessageReraised | worker/scripts/upsert_to_chromadb.py:34-40 | a message too short to hold either phrase is re-raised |
| UpsertChroma.MissingCollectionCreated | worker/scripts/upsert_to_chromadb.py:34-35 | the server's message for a missing collection leads to its creation |
| UpsertChroma.StoredLatest | worker/scripts/upsert_to_chromadb.py:98-102 | for an id in the batch the stored record is its last entry's document and metadata |
| UpsertChroma.StoredUntouched | worker/scripts/upsert_to_chromadb.py:98-102 | an id the batch does not use keeps its record, and no record appears for it |
| UpsertChroma.Server.constructor | worker/scripts/upsert_to_chromadb.py:18-22 | the server starts with the given collections |
| UpsertChroma.Server.UpsertItems | worker/scripts/upsert_to_chromadb.py:5-102 | a lookup error that does not mean missing is re-raised and nothing changes; one that does creates the collection empty; then the call raises exactly when an item raises or `collection.upsert` fails, which stores nothing, and otherwise the collection is upserted with the batch |
| SimilarRanking.PyInt | worker/scripts/update_vector_similar_ranking.py:21 | int() of a score truncates toward zero: the result is the largest integer not above a non-negative score, and the smallest not below a negative one |
| SimilarRanking.Converted | worker/scripts/update_vector_similar_ranking.py:20-21 | each pair keeps its slug, in order, with its score converted by int() |
| SimilarRanking.ToRanking | worker/scripts/update_vector_similar_ranking.py:19-21 | the loop of dict assignments builds exactly the ranking dict |
| SimilarRanking.PutAllLast | worker/scripts/update_vector_similar_ranking.py:20-21 | after the assignments, a key holds the value of the last pair with that key |
| SimilarRanking.PutAllAbsent | worker/scripts/update_vector_similar_ranking.py:20-21 | a key that no pair has is absent from the dict |
| SimilarRanking.RankingLastWins | worker/scripts/update_vector_similar_ranking.py:19-21 | a slug maps to the truncated score of its last pair: a later pair for the same slug wins |
| SimilarRanking.RankingAbsent | worker/scripts/update_vector_similar_ranking.py:19-21 | a slug that no pair carries has no entry |
| SimilarRanking.Drugs.constructor | worker/scripts/update_vector_similar_ranking.py:36-40 | the transaction starts from the committed table |
| SimilarRanking.Drugs.Execute | worker/scripts/update_vector_similar_ranking.py:43-52 | the update touches only the pending transaction; the row count is 1 and the row gets the ranking and the time when the drug exists, and is 0 with nothing changed otherwise |
| SimilarRanking.Drugs.Commit | worker/scripts/update_vector_similar_ranking.py:60 | committing makes the pending table the committed one |
| SimilarRanking.Drugs.Rollback | worker/scripts/update_vector_similar_ranking.py:55-73 | rolling back, or closing without a commit, restores the pending table to the committed one |
| SimilarRanking.Drugs.UpdateRanking | worker/scripts/update_vector_similar_ranking.py:10-79 | the result is True exactly when no step fails and the drug exists; then the committed row holds the ranking and the time; otherwise the committed table is unchanged |
| SimilarDrugs.Embeddings | worker/scripts/find_similar_drugs_by_name.py:51-55 | the embeddings selected for the drug are no more than the stored entries |
| SimilarDrugs.EmbeddingsFound | worker/scripts/find_similar_drugs_by_name.py:51-58 | there is an embedding to average exactly when some stored entry's metadata names the drug |
| SimilarDrugs.Candidates | worker/scripts/find_similar_drugs_by_name.py:71-76 | the candidate names are no more than the neighbours returned |
| SimilarDrugs.CandidatesMembers | worker/scripts/find_similar_drugs_by_name.py:72-76 | a name is a candidate exactly when some neighbour carries it and it is neither empty nor the drug's own name |
| SimilarDrugs.OccurrencesPositive | worker/scripts/find_similar_drugs_by_name.py:77 | a name of the list is counted at least once |
| SimilarDrugs.FirstIndexSpec | worker/scripts/find_similar_drugs_by_name.py:77 | the first position of a name holds that name and no earlier position does; there is one exactly when the name occurs |
| SimilarDrugs.FirstSeen | worker/scripts/find_similar_drugs_by_name.py:77 | the counter has no more keys than there are names |
| SimilarDrugs.FirstSeenMembers | worker/scripts/find_similar_drugs_by_name.py:77 | the counter's keys are exactly the names of the list |
| SimilarDrugs.FirstSeenDistinct | worker/scripts/find_similar_drugs_by_name.py:77 | no key of the counter comes twice |
| SimilarDrugs.FirstSeenOrdered | worker/scripts/find_similar_drugs_by_name.py:77 | the counter's keys are in order of first appearance (insertion order of a dict) |
| SimilarDrugs.Counts | worker/scripts/find_similar_drugs_by_name.py:77 | the counter's items are its keys, in order, each with its number of occurrences |
| SimilarDrugs.InsertRanked | worker/scripts/find_similar_drugs_by_name.py:77 | inserting one earlier item into a ranking keeps it ranked and adds exactly that item |
| SimilarDrugs.RankedCons | worker/scripts/find_similar_drugs_by_name.py:77 | an item that goes before every item of a ranking can be put in front of it |
| SimilarDrugs.SortRanked | worker/scripts/find_similar_drugs_by_name.py:77 | sorting by count, descending and stable, yields a ranking that is a permutation of its input |
| SimilarDrugs.Range | worker/scripts/find_similar_drugs_by_name.py:77 | the positions 0 to n-1, in order |
| SimilarDrugs.OrderSpec | worker/scripts/find_similar_drugs_by_name.py:77 | the order of the counter's items is a ranking (higher count first, ties by first appearance) of exactly its positions |
| SimilarDrugs.MostCommonLength | worker/scripts/find_similar_drugs_by_name.py:77 | most_common(n) gives nothing for n <= 0, otherwise n items or all of them when there are fewer |
| SimilarDrugs.MostCommonCounts | worker/scripts/find_similar_drugs_by_name.py:77 | every item is a name of the list with its true count, at least 1, and no name comes twice |
| SimilarDrugs.MostCommonOrdered | worker/scripts/find_similar_drugs_by_name.py:77 | counts never increase along the result, and equal counts keep the order of first appearance |
| SimilarDrugs.MostCommonOutranked | worker/scripts/find_similar_drugs_by_name.py:77 | a name left out was outranked: the result is full, and the name's count is below the last one kept, or equal to it with a later first appearance |
| SimilarDrugs.FindSimilarError | worker/scripts/find_similar_drugs_by_name.py:51-58 | the ValueError is raised exactly when no stored entry is named after the drug |
| SimilarDrugs.FindSimilarResult | worker/scripts/find_similar_drugs_by_name.py:64-79 | the result has at most top_k names, each non-empty, different from the drug and carried by one of the top_k * 3 neighbours |

## Left out

- External stores and clients (Prisma, the Elasticsearch client, ChromaDB, psycopg2, `fetch`, OpenAI) are parameters. Their internal behaviour is not modelled. Where the code handles a failure of the store, the failure is an input of the model: a `Fault` for psycopg2 (connect, the n-th execute, commit) and for the similar-ranking update, an `EsFault` for Elasticsearch (`indices.exists`, `indices.create`, the `es.index` call of one item, `indices.refresh`), and a flag for Chroma's `collection.upsert`. In particular, the store's treatment of a Prisma `cursor` without `skip` is the store's own.
- Logging, `console.error`, `print` and the messages they write are not modelled: they do not change what is returned or stored.
- Connection parameters read from the environment, client construction, `es.info()`, `close()` calls, `list_collections()` and the Chroma embedding function are connection plumbing with no effect on the modelled results.
- The prompt templates' wording (backend/src/prompts/chat-prompts.ts) is not modelled. The model keeps only that the confirmation prompts embed the search results and the user prompt verbatim.
- React rendering, CSS classes, DOMPurify and the presentational components are not modelled. `RenderBlocks` produces a plain element tree.
- Browser storage is modelled as a field holding the saved snapshot rather than its JSON text. `JSON.parse` of the stored text is a parameter: a parsed state or nothing.
- BeautifulSoup's parser and its serialiser `str(soup)` are parameters. A parsed document is an `Html.Node` tree of text nodes and tags.
- In-place tree updates are modelled as functions from tree to tree over values: `wrap`, `decompose`, `unwrap`, `replace_with` and `attrs.clear()` in fix_html_syntax.py and data_cleanup.py. Node identity and aliasing between the soup and the nodes being visited are not modelled.
- FixHtml's three document-order loops are each modelled as a top-down rewrite that carries whether the required ancestor has been seen. This agrees with the loops because a wrapped node's ancestors are repaired before it is visited.
- `structure_json_html.py:15-21` has a branch for a node without a name. The root passed there is always the named `[document]` tag, so that branch is never reached. The model does not rely on the comment describing it.
- DataStructure.CellContent: a table cell's markup is serialised and structured again. That recursion through the parser and the serialiser is bounded by a fuel parameter, and an empty list is returned when the fuel runs out.
- DataCleanup.RemoveHtmlTags: the result is not claimed to be ASCII. The parser decodes entities such as `&eacute;` after `remove_unicode_characters` has run, so non-ASCII characters can come back.
- DataCleanup.CleanSoup: when the whole document is effectively empty, `decompose()` of the root is modelled as an empty document.
- TagService.FormatCategoryName upper-cases only ASCII letters. JavaScript's full Unicode `toUpperCase` is not modelled. Nor is the lookup `categoryMap[category]` finding what the object literal inherits: for a name such as "constructor", "toString", "valueOf", "hasOwnProperty" or "__proto__" the source returns that inherited function or object as the section name, while the model upper-cases the name's first letter.
- UpsertChroma.Server.UpsertItems: a failing `client.create_collection` after a not-found error is not modelled; the collection is always created.
- UpsertChroma.OnLookupError lower-cases only ASCII letters. Python's full Unicode `lower()` is not modelled.
- Python's `isdigit()` is modelled for ASCII digits only (UpsertPostgres.FormatDate). Other Unicode decimal digits are not.
- DataStructure.ParseHeader accepts only an ASCII digit after the 'h', and the tag name is lower-cased for ASCII letters only. Python's `isdigit()` and `lower()` are Unicode-aware, so a tag such as `h١` (U+0661) is a header in the source and a plain text item here.
- DataStructure.ParseHtmlElement and DataStructure.ParseHtmlElementLoop lower-case the tag name with Text.AsciiLowerString. Python's full Unicode `lower()` is not modelled.
- UpsertChroma: `str()` of a list or dict (its repr) is a parameter. Chroma's own validation of the batch (duplicate ids, metadata value types) is represented only by the failure flag of `collection.upsert`: which batches Chroma rejects is not modelled.
- UpsertPostgres: labeler ids are modelled as a sequence issued from 1. Only a string labeler is looked up successfully; a null, numeric or boolean labeler makes the batch roll back, whether the failure comes at the labeler insert or at the lookup. psycopg2's adaptation of Python values to SQL is not modelled: an error it raises appears only as a failing execute of the `Fault` input, not derived from the values. `json.dumps` of the highlights and the label is kept as the value it serialises.
- SearchPage.Assign treats the filters object as an insertion-ordered map. A JavaScript object lists integer-like keys such as "2" first, in ascending order, and `filters['__proto__'] = v` sets the object's prototype instead of adding an own key. Neither behaviour is modelled.
- SearchPage.ParseFilters builds its filters with Assign, so it inherits both gaps: `?filter_b=x&filter_2=y` gives the key order "b", "2" here and "2", "b" in the source, and `filter___proto__` adds a key here but none in the source.
- SearchPage.FiltersNonEmpty counts a `filter___proto__` parameter as a filter. In the source `Object.keys(filters).length` stays 0 for it.
- SearchPage.FetchFor searches for `/?filter___proto__=x`, where the source lists all medications.
- UpsertPostgres.Database.InsertLabelers visits the set in an unspecified order (UpsertPostgres.IterationOrder). The contract states only the resulting ids and the set of names. An execute error is placed by statement number; which statement fails is an input, not derived from the values.
- SimilarRanking: `int()` of a value that is not a number would raise outside the `try`. Scores are modelled as real numbers, so that case is not modelled. `NOW()` is a parameter, and the columns the update does not touch are left out of a row.
- SimilarDrugs: a metadata name is modelled as a present or missing string, so non-string names are not modelled. The numpy mean embedding, the SentenceTransformer model and the nearest-neighbour query together are one parameter. The printed `drug_names` set is not modelled. `zip` truncation of embeddings and metadatas is not modelled: the stored entries pair them one to one. The nearest-neighbour query cannot fail here: for top_k <= 0 the source asks Chroma for `top_k * 3 <= 0` results, which Chroma rejects, while the model returns an empty list.
- Floating point is not modelled. Chat scores (`1 - distance`) are real numbers, not IEEE arithmetic.
- Rate limiting, concurrency (asyncio, Temporal workers) and the LLM-driven worker scripts are outside the modelled core.
