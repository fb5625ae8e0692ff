# Email triage agent: a Dafny model

This project models the core of a small email-triage application. It pulls
messages from Gmail, turns each into an email record, and categorises it.
Categorisation uses either a language model or a keyword heuristic. The
pipeline also extracts action items, and a Streamlit view shows the
merged inbox.

The modelled pieces are:

- **Gmail message decoding** (`GmailClient`, after gmail_client.py):
  - `_extract_parts` walks the MIME tree in pre-order and collects the
    decoded text/plain and text/html parts;
  - `extract_message_body` chooses between the direct body, the plain
    parts and the html fallback;
  - `get_message` builds the record from the last header of each
    lower-cased name.
- **The fetch loop** (`GmailToAgent`, after gmail_to_agent.py):
  - every fetched message is normalised into the inbox record shape;
  - the record is dispatched to one of three paths: left as is, the
    heuristic, or the language model with its error record;
  - empty fetches are skipped.
- **The heuristic** (`Simulator`): the four-way keyword classification
  and the line-by-line action extraction of `_simple_simulate_processing`,
  including the subject fallback.
- **The language-model path** (`AgentLogic`, after agent_logic.py):
  - `process_email` and its two independent fallbacks;
  - the merge that can raise on a categorisation that is not a dict;
  - `draft_reply` with its canned fallback.
- **JSON extraction from a model reply** (`LlmHelper`, after
  llm_helper.py): the reply is cut at the first `{`, or else the first
  `[`, and then parsed.
- **The application state** (`App`, after app.py):
  - the mapping from processing mode to flags;
  - the merge that puts fetched records first and keeps unfetched inbox
    records in order;
  - the re-run that replaces by id;
  - the paragraph normalisation of the body view;
  - the numbered action-item list.

Python dicts are ordered association lists (`Json.Record`). `{**d, k: v}`
is `Json.Put`: an existing key keeps its slot, and a new key is appended.
`str()` of a value is `Json.ToStr`.

Several collaborators are function parameters:

- the language model together with `json.loads` (a `Completion` from the
  full prompt to an optional parsed value);
- base64 decoding (`Decoder`);
- `bleach.clean`;
- BeautifulSoup text extraction.

The shared modules are:

- `Wrappers`: `Option` and `Result`;
- `Text`: Python's string built-ins on `seq<char>`;
- `Json`: the dict and value model;
- `Results`: the three result keys both processing paths write.

## Model

| member | source | states |
|---|---|---|
| Text.Lower | gmail_to_agent.py:33-37 | after lower-casing no capital letter is left: each capital becomes its small letter in place, and every other character is unchanged |
| Text.LowerIdempotent | gmail_to_agent.py:33-37 | lower-casing an already lower-cased text changes nothing |
| Text.Strip | gmail_to_agent.py:54 | the stripped text is no longer than the input, neither begins nor ends with whitespace, and is empty exactly when the input is all whitespace |
| Text.Contains | gmail_to_agent.py:39 | `w in s` holds exactly when `w` occurs as a contiguous piece of `s` |
| Text.AnyIn | gmail_to_agent.py:39-45 | `any(w in s for w in words)` holds exactly when some listed word occurs in the text |
| Text.Find | llm_helper.py:32-34 | `find` gives -1 exactly when the character is absent, otherwise its first index |
| Text.StripSpec | gmail_to_agent.py:54 | `strip` removes whitespace only, and only at the two ends: the result is the slice of the input at some offset, and everything before that offset and after the slice is whitespace |
| Text.SplitLines | gmail_to_agent.py:53 | `splitlines` gives no lines for the empty text, and no line contains a line break |
| Text.SplitLinesRoundTrip | gmail_to_agent.py:53 | each line followed by its own terminator ("\r\n" or one line-break character; none only after the last line) concatenates back to the text |
| Text.JoinSplit | app.py:220 | joining the pieces of a split with the separator gives back the text |
| Text.SplitPiecesFree | app.py:220 | no piece of a split contains the separator |
| Text.ReplaceIsJoinOfSplit | app.py:218 | `replace` is the same as splitting at the target and joining with the replacement |
| Text.NatToStringRoundTrip | app.py:245-252 | the decimal text of a number reads back as that number |
| Json.Get | gmail_to_agent.py:101-109 | a lookup succeeds exactly for keys in the dict, and yields a value stored under that key |
| Json.Put | gmail_to_agent.py:61-66 | `{**d, k: v}` maps `k` to `v`, leaves every other lookup unchanged, and adds `k` to the keys |
| Json.PutKeepsSlots | gmail_to_agent.py:61-66 | an existing key keeps its slot; the earlier keys stay in their order |
| Json.PutUnique | gmail_to_agent.py:61-66 | a dict stays free of duplicate keys |
| Json.PutAppends | agent_logic.py:66-71 | a key not yet in the dict is added as the last field, after every existing one |
| Json.OrLaws | gmail_to_agent.py:33-37 | `v or alt` is one of its two operands, truthy exactly when one of them is, and `or` chains associate |
| Json.ToStr | gmail_to_agent.py:36 | `str` of a string is the string, and `str(None)` is "None" |
| Results.WithResults | agent_logic.py:66-71 | the record gets the category, reason and action items, and every other key keeps its value |
| Results.WithResultsKeys | gmail_to_agent.py:61-66 | the keys afterwards are the old keys plus the three result keys |
| Results.WithResultsKeepsSlots | gmail_to_agent.py:61-66 | the original keys keep their positions |
| Results.WithResultsUnique | agent_logic.py:66-71 | writing the results keeps keys unique |
| Results.WithResultsOverwrites | gmail_to_agent.py:123-128 | a record that already has the result keys does not grow |
| Simulator.Classify | gmail_to_agent.py:39-50 | the four categories are chosen exactly by the three keyword rules in priority order; each category has its reason, and "Unknown" is never chosen |
| Simulator.RequestRuleReadsBodyOnly | gmail_to_agent.py:45 | once the subject has no newsletter or spam word, it does not affect the category |
| Simulator.LowerKeepsOccurrence | gmail_to_agent.py:33-37 | an occurrence survives lower-casing of both the word and the text |
| Simulator.SubjectKeywordInAnyCase | gmail_to_agent.py:34-41 | a newsletter word in the subject, in any case, makes the email a Newsletter |
| Simulator.LineItems | gmail_to_agent.py:53-56 | there is at most one item per line, and every item has no deadline |
| Simulator.LineItemsEmpty | gmail_to_agent.py:53-56 | no item is extracted exactly when no line contains a request word |
| Simulator.LineItemsTask | gmail_to_agent.py:54-56 | each item is the stripped text of a request line, at or after its own position |
| Simulator.LineItemsAppend | gmail_to_agent.py:53-56 | extraction distributes over concatenation of the lines |
| Simulator.LineItemsSingle | gmail_to_agent.py:55-56 | one line gives one item, its stripped text, exactly when it holds a request word |
| Simulator.LineItemsRepeat | gmail_to_agent.py:53-56 | repeating the body repeats the items |
| Simulator.ExtractActions | gmail_to_agent.py:52-59 | request lines give the items; otherwise a subject with a request word becomes the only task, and otherwise there are none |
| Simulator.ItemValue | gmail_to_agent.py:56-59 | an action item becomes a dict with exactly the keys `task` and `deadline`, whose lookups give the task text and None for a missing deadline |
| Simulator.BodyText | gmail_to_agent.py:32-37 | a non-dict body is `str(body or "")`; a dict body gives its string `text`, or "" when that is falsy |
| Simulator.Simulate | gmail_to_agent.py:61-66 | the result holds the verdict's category, its reason and the extracted items; every other key is unchanged |
| Simulator.SimulateTotal | gmail_to_agent.py:39-50 | every ready email gets one of the four categories with the matching reason |
| GmailToAgent.NormalBody | gmail_to_agent.py:104-107 | the body becomes a dict with exactly the keys `text` (first) and `html`; a dict body passes on its own `text` and `html` (None when missing), another body gives `body or ""` with html None |
| GmailToAgent.InboxRecordAt | gmail_to_agent.py:100-110 | each slot of the record literal is what a lookup of its key yields |
| GmailToAgent.InboxRecordFields | gmail_to_agent.py:100-110 | the inbox record holds exactly the six keys, each with its given value |
| GmailToAgent.NormaliseFields | gmail_to_agent.py:100-110 | the inbox record gives the message's id, sender, subject and timestamp (None when missing), the normalised body, and the raw message ({} when missing) |
| GmailToAgent.NormaliseIdempotent | gmail_to_agent.py:100-110 | normalising an already normalised record changes nothing |
| GmailToAgent.NormalBodyIdempotent | gmail_to_agent.py:104-107 | normalising an already normalised body changes nothing |
| GmailToAgent.ProcessFetched | gmail_to_agent.py:96-128 | a fetch gives no record exactly when the message is empty |
| GmailToAgent.DispatchSkip | gmail_to_agent.py:114-118 | with processing skipped, the record is the heuristic's output when simulating, and otherwise the normalised message itself |
| GmailToAgent.DispatchModel | gmail_to_agent.py:119-128 | the model path gives the processed record, or on an error the record with category "Unknown", reason "Processing error: " plus the message, and no action items |
| GmailToAgent.DispatchKeepsFields | gmail_to_agent.py:114-128 | on every path, each key other than the three result keys keeps its normalised value |
| GmailToAgent.SimulateNeedsSkip | gmail_to_agent.py:114-115 | the simulate flag has no effect unless processing is skipped |
| GmailToAgent.Kept | gmail_to_agent.py:95-98 | the kept records are no more than the messages fetched |
| GmailToAgent.DispatchedSlots | gmail_to_agent.py:95-98 | there is one dispatch result per fetched message, absent exactly for an empty message |
| GmailToAgent.Processed | gmail_to_agent.py:95-130 | a run never yields more records than messages fetched |
| GmailToAgent.KeptAll | gmail_to_agent.py:95-130 | when every fetch succeeded, each message gives its record in order |
| GmailToAgent.KeptAppend | gmail_to_agent.py:95-130 | keeping distributes over consecutive runs of the loop |
| GmailToAgent.ProcessedKeepsAll | gmail_to_agent.py:95-130 | when no fetch is empty, the output has one record per id, each the dispatch result of its own message |
| GmailToAgent.ProcessedSkipsEmpty | gmail_to_agent.py:96-98 | an empty fetched message adds nothing to the output |
| GmailToAgent.KeepPresent | gmail_to_agent.py:95-130 | the loop appends exactly the records of the non-empty fetches, in order |
| AgentLogic.Content | agent_logic.py:49-50 | the model sees the body's `text` for a dict body, `str(body)` otherwise, and None when the body is missing |
| AgentLogic.Merge | agent_logic.py:66-71 | the merge raises exactly when the categorisation is not a dict; otherwise it writes category (default "Unknown"), reason (default "") and the items, and keeps the other keys |
| AgentLogic.ProcessEmail | agent_logic.py:45-71 | processing raises exactly when the categorisation is not a dict; otherwise the email gets the category (default "Unknown"), the reason (default "") and the action step's items, and every other key is unchanged |
| AgentLogic.CategoryFailureFallback | agent_logic.py:53-57 | a failed categorisation gives "Unknown" with "Gemini parsing error" |
| AgentLogic.ActionFailureFallback | agent_logic.py:59-64 | a failed action call gives an empty item list |
| AgentLogic.CategoryIndependentOfActions | agent_logic.py:53-64 | the category and reason depend only on the answer to the categorisation prompt |
| AgentLogic.ActionsIndependentOfCategory | agent_logic.py:53-64 | the action items depend only on the answer to the action prompt |
| AgentLogic.MissingCategoryKeys | agent_logic.py:68-69 | a categorisation without `category` gives "Unknown", and one without `reason` gives "" |
| AgentLogic.MissingPromptIsEmpty | agent_logic.py:46-47 | a missing prompt behaves as a stored empty prompt |
| AgentLogic.DraftReply | agent_logic.py:79-96 | a parsed draft is returned as is; the draft raises only for a truthy subject that is not a string |
| AgentLogic.DraftFallback | agent_logic.py:86-94 | a failed draft gives the canned reply to the subject, or to "" when the subject is falsy |
| AgentLogic.CannedReplyFields | agent_logic.py:90-94 | the canned reply has exactly the subject "Re: " + subject, the thank-you body and no follow-ups |
| GmailClient.Own | gmail_client.py:123-137 | a part contributes at most one text, only when it has data, and only with its own MIME type and decoded data |
| GmailClient.OwnAllAppend | gmail_client.py:139-142 | collecting over two runs of parts is collecting over each in turn |
| GmailClient.ExtractPartsPreOrder | gmail_client.py:115-144 | the recursive walk collects the parts of the tree in pre-order |
| GmailClient.ExtractAllPreOrder | gmail_client.py:139-142 | the walk over a list of children collects their trees in pre-order, one after another |
| GmailClient.OwnAllPlain | gmail_client.py:126-131 | a plain text is collected exactly when some text/plain part with data decodes to it |
| GmailClient.OwnAllHtml | gmail_client.py:132-137 | an html text is collected exactly when some text/html part with data decodes to it |
| GmailClient.SkippedPartWalksChildren | gmail_client.py:126-142 | a part whose data is missing or does not decode contributes only its children |
| GmailClient.OwnAllBound | gmail_client.py:126-137 | no more texts are collected than there are parts |
| GmailClient.FromParts | gmail_client.py:163-178 | plain parts are joined as the text, with the cleaned joined html or None; otherwise html gives its text rendering and cleaned html; nothing collected gives no body |
| GmailClient.ExtractMessageBodyAsWritten | gmail_client.py:147-180 | a direct body wins with html None; the function raises exactly when there is no direct body and nothing is collected |
| GmailClient.ExtractMessageBody | gmail_client.py:147-154 | as written, except that an empty payload gives empty text and html |
| GmailClient.ExtractMessageBodyAgrees | gmail_client.py:155-178 | wherever the code as written returns, the corrected body is the same |
| GmailClient.EmptyPayloadRaises | gmail_client.py:180 | the payload `Part("multipart/mixed", [], "", [])`, with neither a direct body nor any parts, raises as written but gives empty text and html once corrected |
| GmailClient.PlainPreferred | gmail_client.py:166-171 | when plain parts exist, the text is their blank-line join, whatever html exists |
| GmailClient.HtmlFallback | gmail_client.py:174-178 | with html parts but no plain ones, the text is the rendering of the joined html |
| GmailClient.DirectFailureFallsThrough | gmail_client.py:156-163 | a direct body that does not decode falls through to the walk over the parts |
| GmailClient.HeaderDict | gmail_client.py:83 | the header dict has no duplicate keys |
| GmailClient.HeaderDictKeys | gmail_client.py:83 | the header dict's keys are exactly the lower-cased header names |
| GmailClient.LastValue | gmail_client.py:83 | a header name is found exactly when some header has that lower-cased name |
| GmailClient.HeaderDictLast | gmail_client.py:83 | the header dict maps each lower-cased name to the value of its last header |
| GmailClient.HeaderLookup | gmail_client.py:85-87 | a header lookup gives the last value with that name, or the default |
| GmailClient.MessageRecordFields | gmail_client.py:91-99 | the message record maps each of its seven keys to its value |
| GmailClient.GetMessage | gmail_client.py:71-99 | an empty record comes back exactly when the fetch failed; the body is the corrected one |
| GmailClient.GetMessageFields | gmail_client.py:81-98 | the record has the requested id, the last subject/from/date headers or their defaults, the decoded body and the raw message |
| GmailClient.GetMessageAsWritten | gmail_client.py:71-99 | as written, `get_message` raises exactly when the body extraction raises, and otherwise returns the same record as the corrected one |
| GmailClient.AttachmentOnlyMessageRaises | gmail_client.py:89 | a message whose payload is `Part("multipart/mixed", [], "", [])` makes `get_message` raise as written, while the corrected record carries empty text and html |
| LlmHelper.SpanStart | llm_helper.py:32-34 | the start is the first `{`; if there is none, the first `[`; otherwise -1 |
| LlmHelper.JsonSpan | llm_helper.py:32-38 | the parsed text is the suffix from the start, or the whole reply when there is no bracket |
| LlmHelper.JsonSpanIdempotent | llm_helper.py:32-37 | cutting a cut reply again changes nothing |
| LlmHelper.BracePreferred | llm_helper.py:32-34 | a `{` is chosen even when a `[` comes first |
| LlmHelper.CallLlmJson | llm_helper.py:24-40 | a failing model call propagates; missing content or a failed parse gives None; a successful parse of the cut reply is returned |
| LlmHelper.ProseBeforeJsonIgnored | llm_helper.py:29-37 | text before the JSON is ignored, and the parsed JSON is returned |
| App.ModeFlags | app.py:107-115 | only the real mode runs the model, and only the simulate mode sets the simulate flag |
| App.ModeRoundTrip | app.py:92-115 | the three labels and the three consistent flag pairs correspond one to one, and simulate always implies skip |
| App.Unfetched | app.py:128 | the kept inbox records are exactly the inbox records whose id was not fetched |
| App.MergeFetched | app.py:126-132 | the merge fails exactly on an unhashable id; otherwise the result is the fetched records followed by `Unfetched` of the inbox, i.e. the inbox records whose id was not fetched, in inbox order and with repeats |
| App.UnfetchedAppend | app.py:128 | filtering distributes over concatenation |
| App.UnfetchedKeepsAll | app.py:128 | an inbox with no fetched id is kept whole |
| App.UnfetchedDropsAll | app.py:128 | an inbox whose ids were all fetched is dropped whole |
| App.MergeIdempotent | app.py:127-128 | fetching the same records again leaves the inbox unchanged |
| App.PositionsIndex | app.py:128 | each kept record is the inbox record at its recorded position |
| App.PositionsIncrease | app.py:128 | kept records keep their relative inbox order |
| App.PositionsComplete | app.py:128 | every inbox record with an unfetched id is kept |
| App.UnfetchedCount | app.py:128 | one record is kept per inbox position whose id was not fetched |
| App.MergeLength | app.py:127-128 | the merged inbox has the fetched records plus one per unfetched inbox position |
| App.ReplaceById | app.py:262 | replacement keeps the length; a record with the updated id becomes the update, and every other record is unchanged |
| App.ReplaceIdempotent | app.py:262 | replacing twice is replacing once |
| App.RerunReplacesSelected | app.py:258-262 | re-running puts the processed record in the selected slot and leaves records with other ids unchanged |
| App.ProcessingKeepsId | app.py:260-262 | processing keeps the record's id |
| App.DisplayBody | app.py:177-185 | a falsy body shows "" with no html; a dict body shows its text (or "") and its html; any other body shows `str(body)` with no html |
| App.DisplayFetched | app.py:177-185 | a record built by the fetch loop shows its message body's text (or "") and html, or a non-dict body itself (or "") with no html |
| App.NonBlank | app.py:220 | no kept piece is empty, every piece that strips to something is kept, and everything kept is some piece stripped |
| App.NonBlankSingle | app.py:220 | one piece gives its stripped text exactly when that is not empty, and nothing otherwise |
| App.NonBlankAppend | app.py:220 | the kept pieces of two runs are those of the first followed by those of the second, so order and repeats are kept |
| App.NonBlankClean | app.py:220 | each kept piece is non-empty, stripped and free of blank lines |
| App.ParagraphsClean | app.py:218-220 | every paragraph shown is non-empty, stripped and free of blank lines |
| App.SplitJoinClean | app.py:220 | clean paragraphs joined at blank lines split back into the same paragraphs |
| App.NormalizeRoundTrip | app.py:218-220 | splitting the rendered Markdown at blank lines gives back the paragraphs; no paragraphs gives "" |
| App.ShowActions | app.py:238-254 | None shows "not processed", another falsy value shows "no tasks"; a truthy iterable value shows the numbered lines of its elements, one per element; "not iterable" is shown exactly for a truthy value that cannot be iterated |
| App.NumberedFromOne | app.py:245 | line `k` starts with the bullet for number `k + 1`, and that number reads back |
| App.SimulatedItemLine | app.py:246-252 | an item from the heuristic shows its bullet and then its task |

## Left out

- Gmail itself is abstracted: OAuth, label creation and marking, and `list_message_ids` are left out. A fetch is an optional message, and the HTTP error path gives `None`.
- File I/O is left out: `load_prompts`, `_save_raw_messages` and the draft store. The prompts are a parameter.
- `time.sleep` between calls is left out, because it has no effect on the data.
- `summarize_email`, `call_gemini` and `call_llm` are abstract: the language model is a deterministic function of its full prompt.
- The Streamlit widgets are left out, and so is rendering the sanitised html. The view is modelled as the text it shows.
- base64 decoding is an abstract `Decoder`; its failure is caught as in the source.
- `bleach.clean` and BeautifulSoup's text extraction are abstract functions.
- `clean_text` and the html fallback of the view are left out, apart from the pieces in `App.DisplayBody` and `App.NormalizeParagraphs`.
- Floats are left out of `Json.Value`; numbers are integers only. `repr` of strings inside containers uses plain single quotes without escaping.
- `Json.ToStr`: `str` of a container is rendered without escaping string contents.
- Python's equality of `1` and `True` as dict keys and set members is not modelled.
- Dict equality ignores key order in Python but not in `Json.Value`: two dicts with the same items in a different order are different values here.
- App.ReplaceById: ids are compared with `Json.Value` equality, so an id that is a dict (or holds one) matches only a dict with its keys in the same order, where app.py:262 would also match a reordered one.
- `Text.Lower`: maps ASCII letters only; Python's full Unicode case mapping is not modelled.
- `GmailClient.Part`: an empty `data` stands for both a missing and an empty `body.data`; the source treats both as falsy.
- A header without a `name` key (a `KeyError` in the source) is not modelled. Neither is a `payload` whose `body` is `None`.
- `GmailClient.GetMessage`: the `raw_gmail` value is taken as given and is not tied to the structured payload.
- `Simulator.Simulate`: requires `Simulator.Ready`. The crash paths of the heuristic are excluded by that precondition: a dict body whose `text` is present and not a string (gmail_to_agent.py:53 calls `splitlines` on it), or a truthy non-string subject.
- `GmailToAgent.ProcessFetched`: requires `GmailToAgent.Processable`, which extends the same exclusion to the heuristic path.
- Simulator.ExtractActions: the subject fallback's task is the lower-cased subject (gmail_to_agent.py:58-59).
- GmailClient.FromParts: html is None whenever the joined html is empty (gmail_client.py:168-170).
- GmailClient.GetMessage: uses the corrected body. As written, a payload with no direct body and no parts raises `UnboundLocalError` (`GmailClient.GetMessageAsWritten`). The call at gmail_to_agent.py:96 is not inside a `try`, so that aborts the whole fetch, which app.py:131-132 reports as "Fetch failed". The fetch loop model takes the corrected records instead.

## Findings

| source | as written | input that shows it | evidently intended | confidence | as-written member | corrected member |
|---|---|---|---|---|---|---|
| gmail_client.py:180 | when there is no direct body and neither the plain branch nor the html branch runs, the final return reads `text` and `safe_html`, which were never assigned, so it raises `UnboundLocalError` | payload `Part("multipart/mixed", [], "", [])`: no headers, no data, no children | empty text and html, as the docstring at lines 151-153 says | not executed | GmailClient.ExtractMessageBodyAsWritten, GmailClient.EmptyPayloadRaises, GmailClient.GetMessageAsWritten, GmailClient.AttachmentOnlyMessageRaises | GmailClient.ExtractMessageBody, GmailClient.GetMessage |
