# Scam honeypot: intelligence merge and per-turn workflow

This project models the core of a honeypot that talks to suspected financial scammers
and collects what they reveal: a UPI payment id, bank details and phishing links. It
proves properties of the model in Dafny.

The model covers five modules:

- `Intel` (intel.dfy) holds the shared values:
  - `Option` stands for a missing JSON key, or a missing, `undefined` or `null` field on the
    dashboard.
  - `Result` is a collaborator's outcome: a parsed reply, or the exception it raised.
  - `Truthy` is the truthiness test that Python and JavaScript apply to optional strings.
  - `IntelRecord` is the intelligence record; `EmptyIntel` is the empty one.
  - `Prefix` is string truncation: Python's `s[:n]`. It agrees with JavaScript's
    `substring(0, n)` on text within the Basic Multilingual Plane.
- `Collections` (collections.dfy) holds `Distinct`, which removes duplicates and keeps the
  first occurrence. It is the set union of `_merge_intel` and the JavaScript `Set` of the
  dashboard.
- `Agents` (agents.dfy) models agents.py. It covers three agents:
  - `ExtractionAgent.extract_intelligence`: the UPI pattern, scanned the way `re.findall`
    scans; the loop that appends URLs the collaborator did not report; and the all-empty
    result when the call fails.
  - `OrchestratorAgent.decide_next_step`: its fallback when the call fails.
  - `PersonaAgent.generate_response`: its defaults and its fallback.
- `StateGraph` (state_graph.dfy) models state_graph.py. It has two classes:
  - `WorkflowState` is the mutable state of one turn.
  - `StateGraph` holds the three language-model collaborators and the URL pattern as
    function-typed constants. Its `MergeIntel` updates a state in place. Its `Run` builds a
    fresh state, extracts, decides and replies, in that order.
- `Dashboard` (dashboard.dfy) models frontend/app/page.tsx. It holds the pure helpers of the
  monitoring page:
  - the text shown for a message;
  - the scammer count and the UPI-flag count;
  - the hotspot map: one spot per distinct truthy client id, placed by a character-code hash;
  - the badge, label and colour mappings.

Each language-model call is a parameter whose value is an abstract `Result`. The URL pattern
is a parameter too, a function returning the matches.

### Intended behaviour versus the code (the model follows the code)

- One might expect a failed extraction call to fall back to the pattern matches. The code
  instead returns the all-empty record and drops the matches (agents.py:172-174). See
  `Agents.ExtractIntelligence` and `StateGraph.FailedExtractionLeavesNoIntel`.
- One might expect a collaborator value to win whenever it is present. The code tests
  truthiness, so an empty string also gives way to the pattern match (agents.py:160).
- One might expect the link list to hold each link once. The code checks message URLs only
  against the collaborator's original list, so a URL that appears twice in the message is
  appended twice (agents.py:166-169). See `Agents.RepeatedUrlAppendedTwice`.
- One might expect intelligence to build up over a conversation. `StateGraph.run` starts
  every call from a fresh `WorkflowState`, so nothing carries over from one call to the
  next (state_graph.py:25). See `StateGraph.StateGraph.Run` and `StateGraph.MergeIntoEmpty`.
- The comment at state_graph.py:27 calls extraction and classification parallel. The code
  runs them one after the other (state_graph.py:31-39).
- `decide_next_step` ignores its `history` argument: the prompt is built from the message
  alone (agents.py:25-53). The model's classifier may depend on the history, which only
  widens the collaborator.
- Turn counting, an interaction log, durable persistence, a strategy selector and
  per-client locking are not present in the modelled code.

## Model

| member | source | states |
|---|---|---|
| Intel.Prefix | agents.py:62 | `s[:n]` is a prefix of `s` whose length is `n`, or all of `s` when `s` is shorter |
| Collections.Distinct | state_graph.py:62-64 | the union without repeats: same elements as the input, none twice, never longer |
| Collections.DistinctOfDistinct | state_graph.py:62-64 | removing duplicates from a list that has none changes nothing |
| Collections.DistinctAbsorbs | state_graph.py:62-64 | uniting a duplicate-free list with elements it already holds gives back that list |
| Agents.Run | agents.py:128 | a greedy `{m,cap}` repetition takes at most `cap` characters, and stops early only at the end of the text or at a character outside its class |
| Agents.RunInClass | agents.py:128 | every character a greedy repetition consumes belongs to its class |
| Agents.RunExact | agents.py:128 | a repetition consumes exactly a class stretch ended by the cap, the text's end or a foreign character |
| Agents.MatchEnd | agents.py:128 | a match found at position `i` ends after `i` and within the text |
| Agents.MatchEndSound | agents.py:128 | what the matcher reports at `i` is a UPI token: 2-256 `[A-Za-z0-9._-]`, `@`, then 2-64 ASCII letters |
| Agents.MatchEndIsLongestToken | agents.py:128 | whenever a UPI token starts at `i`, the matcher finds a match there, and it reaches at least as far as that token (greediness) |
| Agents.IsUpiToken | agents.py:128 | the reference definition of one match of the pattern, which the scanner lemmas are stated against: 2-256 `[A-Za-z0-9._-]`, `@`, then 2-64 ASCII letters; such a token holds an `@` and is 5 to 321 characters long |
| Agents.FindUpis | agents.py:131 | `re.findall` of the UPI pattern, the reference the extraction contracts use: every string it returns is a UPI token, and it returns nothing exactly when no part of the message is one |
| Agents.FirstMatchIsLeftmost | agents.py:160-161 | the first match of the scan, the `upis[0]` that `extract_intelligence` keeps as its UPI id, is the leftmost token: the matcher finds it at a position before which no token starts |
| Agents.LeftmostMatch | agents.py:131 | the scan's first match starts at a position where the matcher finds exactly that match, and no UPI token starts anywhere before it |
| Agents.NoTokenAt | agents.py:131 | where the matcher finds no match, no UPI token starts at that position |
| Agents.FindUpisFromEmptyIff | agents.py:131 | `findall` returns nothing exactly when no substring of the text is a UPI token |
| Agents.SingleTokenAt | agents.py:131 | a text whose only `@` sits inside one maximal token yields exactly that token |
| Agents.SingleUpiMessage | agents.py:128-131 | a message of the form prefix, UPI-shaped word, suffix yields exactly that word when the prefix and suffix cannot extend it and hold no `@` |
| Agents.PoliceScenarioUpis | agents.py:128-131 | the message "Send money to police@axisb immediately" yields exactly `police@axisb` |
| Agents.Unseen | agents.py:166-169 | the message URLs missing from the collaborator's original set, in message order: none longer than the input, and membership is exactly "in the message, not in the set" |
| Agents.UnseenAppend | agents.py:167-169 | filtering preserves message order: it distributes over concatenation |
| Agents.UnseenCount | agents.py:166-169 | a URL not in the original list is appended once for each time the message holds it; a URL already in the list is never appended |
| Agents.CombineExtraction | agents.py:159-174 | the reference for what extraction returns, which `ExtractIntelligence` is proved against: on failure the empty record; otherwise a truthy collaborator `upi_id` wins, then the first pattern match, if any; `bank_details` passes through; the collaborator's links (none when missing) stay as a prefix, followed by exactly the unseen message URLs in order; the elements are the union of both lists |
| Agents.RepeatedUrlAppendedTwice | agents.py:166-169 | a URL that appears twice in the message and is unknown to the collaborator is appended twice |
| Agents.UnseenStep | agents.py:167-169 | one loop iteration extends the appended part by the current URL exactly when that URL is not already known |
| Agents.AppendUnseenUrls | agents.py:164-169 | the append loop gives the original links followed by the unseen message URLs, because `existing` is never updated inside the loop |
| Agents.ExtractIntelligence | agents.py:123-174 | the result is the collaborator's reply combined with the pattern matches; when the call fails, the result is all-empty |
| Agents.PatternFillsMissingUpi | agents.py:131-161 | when the collaborator answers without a UPI id, a message holding one UPI-shaped word gets that word as its `upi_id` |
| Agents.PoliceScenarioExtraction | agents.py:128-161 | with a collaborator that reports nothing, "Send money to police@axisb immediately" still gets `upi_id` `police@axisb` |
| Agents.ErrorReasoning | agents.py:62 | the fallback reasoning is `Error: `, then at most 50 characters of the error, then `...`; it is 10 to 60 characters long |
| Agents.DecideNextStep | agents.py:48-62 | on success, the classifier's decision as parsed; on failure, no scam, LOW suspicion and the error reasoning |
| Agents.FailedDecisionIsBenign | agents.py:56-62 | a failed classification never flags a scam, reads as LOW, and gives reasoning of at most 60 characters |
| Agents.PersonaContext | agents.py:72-73 | a missing `scam_detected` reads as False and a missing `suspicion_level` as LOW; message and intel are handed on unchanged |
| Agents.GenerateResponse | agents.py:103-117 | the collaborator's reply; the stock line "Arre beta, main samajh nahi paayi." when the reply lacks the `reply` key; "Beta, aawaz kat rahi hai, phir se bolo?" when the call fails |
| Agents.ReplyNonEmptyUnlessSentEmpty | agents.py:114-117 | the persona's answer is never empty unless the collaborator itself sent an empty reply |
| StateGraph.MergeRecord | state_graph.py:54-64 | a truthy `upi_id` or `bank_details` overwrites and a falsy one leaves the stored value; a non-empty link list gives exactly old ∪ new without repeats; an empty one leaves the stored list exactly as it was |
| StateGraph.MergeMonotone | state_graph.py:54-64 | merging loses no stored link, and a truthy stored `upi_id` or `bank_details` stays truthy |
| StateGraph.MergeIdempotent | state_graph.py:54-64 | merging the same delta a second time changes nothing |
| StateGraph.MergeIntoEmpty | state_graph.py:9-11 | merging into a fresh state's empty intel keeps just the delta's truthy scalars and its links without repeats |
| StateGraph.FailedExtractionLeavesNoIntel | state_graph.py:32-33 | a turn whose extraction call fails stores empty intelligence |
| StateGraph.WorkflowState.constructor | state_graph.py:5-15 | a new state holds the given history and input, empty intel, no scam, LOW, and empty reasoning and reply |
| StateGraph.StateGraph.constructor | state_graph.py:18-21 | the graph holds the given collaborators |
| StateGraph.StateGraph.MergeIntel | state_graph.py:54-64 | the state's intel becomes the merge of the old intel and the delta, and every other field keeps its value |
| StateGraph.StateGraph.Run | state_graph.py:23-52 | returns a fresh state holding the history and message; its intel is this call's extraction merged into empty intel; its decision fields default to False, LOW and ""; its reply is the persona's answer to the post-merge intel |
| Dashboard.GetMessageText | frontend/app/page.tsx:12-16 | a string is shown as it is; an object with a truthy `text` shows that text; anything else shows its JSON rendering |
| Dashboard.ScammerCount | frontend/app/page.tsx:53 | the count is zero exactly when the turn-count map is empty |
| Dashboard.ScammerCountAfterTurn | frontend/app/page.tsx:53 | a new client adds one to the count; a known client adds nothing |
| Dashboard.FlaggedInteractions | frontend/app/page.tsx:54 | the filter keeps exactly the interactions with a truthy UPI id; it keeps all of them exactly when every interaction is flagged |
| Dashboard.FlaggedInteractionsKeepRepeats | frontend/app/page.tsx:54 | `filter` keeps repeats: a flagged interaction occurs in the result exactly as often as in the log, an unflagged one never |
| Dashboard.UpiFlaggedCount | frontend/app/page.tsx:54 | the count never exceeds the number of interactions; it is zero exactly when none is flagged, and full exactly when all are |
| Dashboard.UpiFlaggedCountAppend | frontend/app/page.tsx:54 | the count of a longer log is the old count plus the count of the new interactions |
| Dashboard.CharCodeSum | frontend/app/page.tsx:195 | the hotspot hash, the reference the placement lemmas use: at most 0x10FFFF per character, and zero exactly when every character is NUL |
| Dashboard.CharCodeSumRemove | frontend/app/page.tsx:195 | taking one character out of an id takes its code out of the hash |
| Dashboard.CharCodeSumAppend | frontend/app/page.tsx:195 | the hash of two joined pieces is the sum of their hashes |
| Dashboard.CharCodeSumOfPermutation | frontend/app/page.tsx:195 | ids made of the same characters hash alike |
| Dashboard.Place | frontend/app/page.tsx:195-197 | `x` is 30 plus the hash mod 40 and `y` is 30 plus thirteen times the hash mod 40; both lie in [30, 69] |
| Dashboard.PermutedIdsCollide | frontend/app/page.tsx:195-197 | ids that are rearrangements of each other are drawn at the same spot |
| Dashboard.ClientIds | frontend/app/page.tsx:192 | the log's client ids, one per interaction, in log order |
| Dashboard.TruthyIds | frontend/app/page.tsx:193 | exactly the truthy ids are kept, with no new repeats |
| Dashboard.HotspotIds | frontend/app/page.tsx:192-193 | each truthy client id of the log appears exactly once, and nothing else appears |
| Dashboard.Hotspots | frontend/app/page.tsx:192-197 | one hotspot per hotspot id, each at its place inside [30, 69]², no two with the same id |
| Dashboard.CardTone | frontend/app/page.tsx:139 | the card border is red exactly for a detected scam, and blue otherwise |
| Dashboard.ThreatLabel | frontend/app/page.tsx:144-145 | the badge reads "THREAT DETECTED" exactly for a detected scam, and "NORMAL TRAFFIC" otherwise |
| Dashboard.SuspicionTone | frontend/app/page.tsx:150-153 | the badge is red exactly for HIGH and yellow exactly for MEDIUM; anything else, a missing level included, is green |
| Dashboard.ReasoningText | frontend/app/page.tsx:161 | a truthy reasoning is shown as it is; otherwise the placeholder; the text is never empty |
| Dashboard.IdLabel | frontend/app/page.tsx:148 | `ID: `, then at most eight characters of the client id (nothing when it is missing), then `...` |
| Dashboard.IntelTypeTone | frontend/app/page.tsx:250-255 | UPI is yellow, BANK green and LINK red, each exactly; other types get no colour |
| Dashboard.SourceCell | frontend/app/page.tsx:258 | a truthy source shows at most 8 of its characters followed by `...`, at most 11 in all; otherwise `N/A` |

## Left out

- The language-model calls, the OpenRouter client and `json.loads` (agents.py:14-19,
  49-55, 104-113, 151-157) are left out. Only their outcome is modelled, as a `Result`
  over a typed reply. A missing JSON key becomes `None`. A key present with the value
  JSON `null` is not modelled: `.get(key, default)` would return `None` for it, not the
  default (agents.py:72-73, 114; state_graph.py:37-39). JSON values of the
  wrong type are not modelled.
- The URL pattern (agents.py:129) uses Unicode-aware `\w`. It is a function-typed
  parameter returning the matches in order, and its matching is not modelled.
- The prompt texts, including the strategy descriptions (agents.py:29-47, 75-101), are
  prose for the model. No code branches on them.
- Printing and traceback output (agents.py:59-61, 116, 173) are left out.
- Collections.Distinct: Python's `list(set(...))` has no defined order. The model fixes
  first-occurrence order. The merge contracts speak only of membership and the absence of
  repeats, apart from `MergeIdempotent`, which relies on this fixed order.
- Agents.PoliceScenarioUpis: the scenario message is written as the concatenation of its
  parts, not as one literal, to keep the proof cheap for the solver.
- Dashboard.CharCodeSum: JavaScript's `charCodeAt` reads UTF-16 code units, while Dafny's
  `char` is a Unicode scalar value. The two agree only on the Basic Multilingual Plane.
- Dashboard.IdLabel: JavaScript's `substring(0, 8)` counts UTF-16 code units, and the
  model counts Unicode characters. Outside the Basic Multilingual Plane the page shows fewer
  characters than the model, and it may split a surrogate pair.
- Dashboard.SourceCell: the same UTF-16 difference as `Dashboard.IdLabel`. A source of five
  emoji shows four of them and `...` on the page, but all five in the model.
- Dashboard.Place: JavaScript numbers are doubles. Sums beyond 2^53 are not modelled.
- Dashboard.GetMessageText: `JSON.stringify` (frontend/app/page.tsx:15) is a parameter and
  is not modelled.
- The React parts of the page are left out: state hooks, polling with `setInterval`,
  `alert` and the JSX layout (frontend/app/page.tsx:18-50, 56 onward), apart from the
  mappings listed above.
- `interaction.scam_detected` is modelled as a boolean rather than as an arbitrary JSON
  value with JavaScript truthiness.
- frontend/lib/api-client.ts, main.py and the simulation and verification scripts are not
  part of this model. They are HTTP wrappers, placeholder endpoints and test harnesses.
- Turn counting, the interaction log, durable persistence and per-client locking do not
  appear in the modelled code, so they are not modelled.
