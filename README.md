# ResumeAI agent core, modelled in Dafny

This project models the non-rendering part of ResumeAI's `ResumeAgent` in `backend_ai.py`: the records it works on, and its four language-model operations.

- **Records:** `ExperienceItem`, `ResumeData` and `ATSEvaluation` (`backend_ai.py`, lines 17-36), as datatypes of `ResumeTypes`. Their defaults are stated by `Parser.AbsentEntryFieldsDefault` and `Parser.AbsentFieldsDefault`, and their validation by the `Parser` and `Auditor` rows below.
- **`rewrite_all_jobs`:** the bullet rewriter.
- **`audit_resume`:** the ATS keyword audit.
- **`parse_resume_text`:** the resume parser.
- **`generate_cover_letter`:** the cover-letter composer.

The language model is an oracle, `Llm = (nat, Prompt) -> Response`:
- It is called with the number of calls the operation has already made and a structured prompt.
- The prompt records exactly the inputs its text is built from: the forbidden verbs, the job-description context, the tone's style block, the entry's fields, the truncated texts.
- It answers either `NoResponse` (the API call failed and `_call_llm` returned `None`) or `Reply(text, decoded)`. `decoded` is what `json.loads` makes of the text, and `None` means it is not valid JSON.

Modules:

- `Wrappers`: `Option`.
- `Json`: decoded JSON values.
  - An object is its members in insertion order. Its keys are assumed distinct, which `json.loads` guarantees by keeping the last duplicate; nothing in the model checks it.
  - Dict lookup (`Get`) and reading a list of strings (`AsStrings`) are defined here.
- `Text`: the string operations the rewriter uses.
  - `str[:n]`;
  - `split()[0]` over Python's whitespace set;
  - `strip(".,")`;
  - `capitalize()`.
- `Verbs`: the normalised leading word of a bullet, and the set of those words for a list of bullets.
- `ResumeTypes`: the three records and their all-default values.
- `Gateway`: prompts, responses, the oracle type, and the 3000-character job-description limit.
- `Rewriter`: `rewrite_all_jobs`.
  - The reply decoder and its fixed priority: a bare list, then the `"bullets"` member, then the first member, else the fallback pair.
  - The forbidden-verb accumulator.
  - The pass itself, as a method with loops.
  - `IsPass`, the relation that says what a pass does given the oracle's answers.
- `Auditor`: `audit_resume`, as a method with the append loop of the source.
- `Parser`: `parse_resume_text` and the validation of the reply as `ResumeData`.
- `CoverLetter`: `generate_cover_letter`.

Where the project's own description of these operations and its code disagree, the model follows the code:

- `generate_cover_letter` does not always return a string. When the call fails, `json.loads(None)` raises `TypeError` and the handler returns the response, which is `None`. When the reply is an object, the `cover_letter` value is returned whatever its JSON type. The model returns `NoLetter` and `LetterValue(v)` for these two cases.
- A selected bullet value that is not a list of strings does not fall back to the fixed pair. The decoding `try` ends before the leading-verb loop, so a non-string element makes `.split()` raise out of the pass. The model ends the pass with `Raised`. The entries rewritten before that point keep their new bullets, since the source assigns them in place on the caller's objects.

## Model

| member | source | states |
|---|---|---|
| Json.GetSpec | backend_ai.py:212 | A dict lookup finds a value exactly when the key is present, and the value found is stored under that key. |
| Json.AsStringsSpec | backend_ai.py:217-218 | A value reads as a list of strings exactly when it is a JSON list whose every element is a string, and it is then the encoding of that list. |
| Json.AsStringsOfStrList | backend_ai.py:217-218 | Writing a list of strings as JSON and reading it back gives the same list. |
| Gateway.Decode | backend_ai.py:59-72 | Only a reply can decode; a failed call (`None`) never yields JSON. |
| Text.Prefix | backend_ai.py:155 | `s[:n]` is a prefix of `s` of length `min(len(s), n)`. |
| Text.DropSpacesSpec | backend_ai.py:218 | What `split()` skips before the first word is all whitespace, and what remains is empty or starts with a non-space. |
| Text.TakeWordSpec | backend_ai.py:218 | The first word is a whitespace-free prefix, followed by whitespace or the end of the text. |
| Text.FirstToken | backend_ai.py:218-219 | The definition of `split()[0]` under the `if words` guard: the first run of non-whitespace after leading whitespace, `None` when there is none. `Text.FirstTokenSpec` states its properties. |
| Text.FirstTokenSpec | backend_ai.py:218-219 | `split()` has no first word exactly when the bullet is all whitespace; otherwise it is a non-empty maximal whitespace-free run preceded only by whitespace. |
| Text.FirstTokenOfWord | backend_ai.py:218 | A word followed by whitespace is the first token of anything after it. |
| Text.FirstTokenOfWholeWord | backend_ai.py:218 | A non-empty whitespace-free text is its own first token. |
| Text.TrimStartSpec | backend_ai.py:220 | Stripping on the left drops exactly the leading run of `.`/`,`. |
| Text.TrimEndSpec | backend_ai.py:220 | Stripping on the right drops exactly the trailing run of `.`/`,`. |
| Text.StripDotsCommas | backend_ai.py:220 | `strip(".,")` never lengthens the word. `Text.StripDotsCommasSpec` states what it keeps. |
| Text.StripDotsCommasSpec | backend_ai.py:220 | `strip(".,")` leaves a middle part of the word that neither starts nor ends with `.` or `,`, with only dots and commas removed around it. |
| Text.StripDotsCommasKeeps | backend_ai.py:220 | A word that neither starts nor ends with `.` or `,` is unchanged by the strip. |
| Text.LowerAllSpec | backend_ai.py:220 | Lower-casing maps every character by the case mapping, position by position. |
| Text.Capitalize | backend_ai.py:220 | `capitalize()` keeps the length of the word. `Text.CapitalizeSpec` states the mapping position by position. |
| Text.CapitalizeSpec | backend_ai.py:220 | `capitalize()` upper-cases the first character and lower-cases every other one. |
| Text.LowerAllIdempotent | backend_ai.py:220 | Lower-casing twice is lower-casing once. |
| Text.LowerAllKeeps | backend_ai.py:220 | Text with no upper-case letter is unchanged by lower-casing. |
| Text.CapitalizeKeeps | backend_ai.py:220 | A word already capitalised is unchanged by `capitalize()`. |
| Text.CapitalizeIdempotent | backend_ai.py:220 | Capitalising twice is capitalising once. |
| Verbs.LeadingVerb | backend_ai.py:218-220 | The definition of a bullet's verb: the first word, stripped of `.`/`,` and capitalised, or none when the bullet has no word. The `Verbs` lemmas below state its properties. |
| Verbs.VerbsOf | backend_ai.py:217-221 | The definition of the verbs one list of bullets adds to `used_verbs`: the verb of every bullet that has one. |
| Verbs.NoVerbIffBlank | backend_ai.py:218-219 | A bullet contributes no verb exactly when it is all whitespace. |
| Verbs.LeadingVerbShape | backend_ai.py:218-221 | A bullet with a word contributes a verb no longer than that word, free of whitespace, and neither starting nor ending with `.` or `,`. |
| Verbs.DotsGiveEmptyVerb | backend_ai.py:220 | The contribution may be the empty string, as for the token `"..."`. |
| Verbs.LeadingVerbIsNormal | backend_ai.py:220 | A non-empty contributed verb is already normal: normalising it again gives it back. |
| Verbs.VerbsOfSnoc | backend_ai.py:217-221 | The verbs of a list with one more bullet are the earlier verbs plus that bullet's verb. |
| Verbs.VerbsOfStep | backend_ai.py:217-221 | The verbs of the first `j+1` bullets are those of the first `j` plus bullet `j`'s. |
| Rewriter.JdContext | backend_ai.py:155 | The context is the placeholder for an empty job description, else its non-empty prefix of `min(len, 3000)` characters. |
| Rewriter.StyleFor | backend_ai.py:161-179 | The humanizer style is chosen exactly when the tone is `"Humanized"`. |
| Rewriter.Select | backend_ai.py:208-215 | The decoding block falls back exactly when the call failed, the text is not JSON, the JSON is an empty object, or it is neither a list nor an object. A bare list is picked as it is. |
| Rewriter.NewBullets | backend_ai.py:208-218 | The definition of the new bullets: the fallback pair, or the picked value read as strings, or none (the pass raises) when it is not a list of strings. The `Decodes…` and `FailureFallsBack` lemmas state its cases. |
| Rewriter.DecodesBareList | backend_ai.py:210-211 | A reply that is a list of strings becomes the new bullets. |
| Rewriter.DecodesBulletsMember | backend_ai.py:212 | An object with a `"bullets"` member holding strings yields those strings, whatever comes before it. |
| Rewriter.DecodesFirstMember | backend_ai.py:213 | An object without `"bullets"` yields its first member's value. |
| Rewriter.FailureFallsBack | backend_ai.py:209-215 | A failed call, malformed JSON, an empty object or a scalar yields exactly `["Managed {role} responsibilities.", "Optimized team workflows."]`. |
| Rewriter.FallbackVerbs | backend_ai.py:215-221 | The fallback pair contributes exactly `Managed` and `Optimized`. |
| Rewriter.Forbidden | backend_ai.py:153-221 | The definition of `used_verbs` when entry `i` is sent: the verbs of the bullets of entries `0 .. i-1`. `Rewriter.ForbiddenMembers` and `Rewriter.ForbiddenGrows` state its properties. |
| Rewriter.ForbiddenMembers | backend_ai.py:157-221 | A verb is forbidden for entry `i` exactly when the bullets of some entry before `i` contribute it. |
| Rewriter.ForbiddenGrows | backend_ai.py:153-221 | The forbidden set only grows along the pass, starting from the empty set. |
| Rewriter.ForbiddenReadsPrefix | backend_ai.py:157-158 | Entry `i`'s forbidden set depends only on the entries before `i`, so never on its own bullets. |
| Rewriter.AddLeadingVerbs | backend_ai.py:217-221 | The inner loop adds exactly the verbs of the new bullets to the accumulator. |
| Rewriter.IsPass | backend_ai.py:147-226 | What a pass is, given the oracle's answers. It sends prompt `k` with the verbs of the entries before `k`, and rewrites each entry's bullets from its reply. It either returns after every entry, or raises at the last call, whose selection is not a list of strings. Entries after the stop are left as they were. |
| Rewriter.RaisedIsPass | backend_ai.py:217-224 | A reply that raises leaves that entry and every later one as they were, after the earlier entries were rewritten. |
| Rewriter.RewriteAllJobs | backend_ai.py:147-226 | The pass sends one prompt per entry, in order, each with the verbs of earlier entries only; it returns one entry per input with only the bullets overwritten, or raises at the first reply whose selection is not a list of strings; an empty input makes no call. |
| Rewriter.EntryOfPass | backend_ai.py:223-224 | Entry `k` of a pass's result is entry `k` of the input with its bullets replaced by the decoded reply to prompt `k`, and every other field kept. |
| Rewriter.StopOfPass | backend_ai.py:217-218 | A pass stops exactly at the first reply whose selection is not a list of strings. |
| Rewriter.PromptOfPass | backend_ai.py:157-204 | Prompt `k` carries the target role, the job-description context, the tone's style, entry `k`'s fields and the verbs of the result's entries before `k`. |
| Rewriter.PassIsDeterministic | backend_ai.py:147-226 | Two passes over the same inputs and replies send the same prompts and end the same way with the same entries. |
| Rewriter.SecondEntryAvoidsFirstVerbs | backend_ai.py:157-221 | For two entries, when the first reply is `["Built an API.", "Led a team of four."]`, the second prompt forbids exactly `Built` and `Led`. |
| Rewriter.ExampleVerbs | backend_ai.py:217-221 | Those two bullets contribute exactly `Built` and `Led`. |
| Auditor.Shown | backend_ai.py:106-111 | An entry is shown by its enhanced bullets exactly when it has some, else by its raw summary. |
| Auditor.AuditPrompt | backend_ai.py:113-129 | The audit prompt carries the skills, one text per entry in order, and the first `min(len, 3000)` characters of the job description. |
| Auditor.AuditResume | backend_ai.py:101-133 | An empty job description gives score 100, no missing keywords and one fixed suggestion, with no call; otherwise exactly one call with the audit prompt, whose reply gives the verdict. |
| Auditor.ValidateAudit | backend_ai.py:130-131 | `ATSEvaluation(**data)` validates only an object, and takes its score, missing keywords and suggestions from the members under those keys. |
| Auditor.AuditOutcome | backend_ai.py:129-133 | A failed call gives the error verdict. Any other verdict is the validated decoded reply. |
| Auditor.AuditRoundTrip | backend_ai.py:17-20 | An evaluation written with its three fields validates back to itself. |
| Auditor.AuditOfReply | backend_ai.py:130-131 | A reply holding an evaluation is returned unchanged, the score unclamped. |
| Auditor.AuditFailsToSentinel | backend_ai.py:130-133 | A failed call, malformed JSON or a non-object gives score 0, missing `["Error parsing audit"]`, no suggestions. |
| Auditor.MissingFieldFails | backend_ai.py:17-20 | An object lacking a field, or with a non-integer score, does not validate. |
| Auditor.ExtraKeyIgnored | backend_ai.py:17-20 | Members under other keys do not change the validation. |
| Parser.ParsePrompt | backend_ai.py:94 | The parse prompt carries the first `min(len, 8000)` characters of the resume text. |
| Parser.Objects | backend_ai.py:34 | A `List[dict]` validates exactly when every element is an object, and then gives those objects in order. |
| Parser.ValidateExperience | backend_ai.py:22-29 | `ExperienceItem(**data)` validates only an object. Each string field is the string stored under its key, or `""` when the key is absent. The bullets are the strings stored under `enhanced_bullets`, or empty when it is absent. |
| Parser.ValidateExperiences | backend_ai.py:36 | A `List[ExperienceItem]` validates exactly when every element does, and then gives one entry per element, in order. |
| Parser.ValidateResume | backend_ai.py:31-36 | `ResumeData(**data)` validates only an object. The name and contact are the strings stored, or `""` when absent. The skills are the object stored, or empty. The education and experience have one element per list element, or are empty when absent. |
| Parser.ParseResume | backend_ai.py:94-99 | A reply that is not JSON gives `ResumeData()`. Any other result is the validated decoded reply. |
| Parser.ExperienceRoundTrip | backend_ai.py:22-29 | An entry written with every field validates back to itself. |
| Parser.ObjectsRoundTrip | backend_ai.py:34 | A written list of objects validates back to those objects. |
| Parser.ExperiencesRoundTrip | backend_ai.py:36 | Written entries validate back to themselves, in order. |
| Parser.ResumeRoundTrip | backend_ai.py:31-36 | A resume written with every field validates back to itself. |
| Parser.ParseOfReply | backend_ai.py:94-97 | A reply holding a written resume is parsed to exactly that resume. |
| Parser.ParseFailsToDefault | backend_ai.py:95-99 | A failed call, malformed JSON or a non-object gives `ResumeData()`. |
| Parser.AbsentFieldsDefault | backend_ai.py:31-36 | An object with none of the five fields validates to the all-default record. |
| Parser.WrongTypeFails | backend_ai.py:31-36 | A `full_name` or `contact_info` that is not a string, a `skills` that is not an object, or an `education` or `experience` that is not a list makes the whole record fail. |
| Parser.BadEducationElementFails | backend_ai.py:34 | One `education` element that is not an object makes the whole record fail. |
| Parser.BadExperienceElementFails | backend_ai.py:36 | One `experience` element that does not validate as an entry makes the whole record fail. |
| Parser.AbsentEntryFieldsDefault | backend_ai.py:22-29 | An object with none of the seven entry fields validates to the all-default entry. |
| Parser.ExtraKeyIgnored | backend_ai.py:31-36 | Members under other keys do not change the validation. |
| CoverLetter.BulletsPerJob | backend_ai.py:136 | The prompt lists each entry's enhanced bullets, in order. |
| CoverLetter.LetterPrompt | backend_ai.py:136-138 | The prompt carries the full name, the bullets per entry and the first `min(len, 3000)` characters of the job description. |
| CoverLetter.LetterOf | backend_ai.py:139-144 | A `cover_letter` value comes from an object reply's member under that key. An object rendering comes from an object reply without that key. Raw text is the reply's own text, returned when the reply is not JSON or not an object. |
| CoverLetter.GenerateCoverLetter | backend_ai.py:135-144 | The composer yields no letter exactly when its one call fails. Raw text is that call's reply text. |
| CoverLetter.LetterOfReply | backend_ai.py:140-142 | A reply `{"cover_letter": s}` gives back `s`. |
| CoverLetter.NoLetterOnlyWithoutReply | backend_ai.py:139-144 | The composer yields `NoLetter` (the handler's `None`) exactly when the call itself failed. |
| CoverLetter.NoneExactlyWhen | backend_ai.py:139-144 | The caller receives `None` exactly when the call failed, or when the reply is an object whose `cover_letter` member is `null`. |
| CoverLetter.BadPayloadGivesRawText | backend_ai.py:143-144 | Malformed JSON or JSON that is not an object is returned as the raw reply text. |
| CoverLetter.ObjectReplyIsRead | backend_ai.py:141-142 | An object yields its `cover_letter` member when present (any JSON type), else its `str()` rendering. |

## Left out

- `extract_text_from_pdf` (a pypdf wrapper) and `create_styled_resume` (python-docx layout and file saving): foreign libraries, no logic to prove.
- `auth.py` (SQLite storage and hashing) and `frontend_app.py` (Streamlit UI): I/O and UI glue outside the agent's core.
- `ResumeAgent.__init__` and the network call inside `_call_llm`: the language model is an oracle. `json.loads` is abstract: a reply carries its decoded value or `None`.
- The prose of the prompts: a prompt is a record of the values its text is built from. The `", ".join(list(used_verbs))` rendering is not modelled, so neither is its unspecified order; the prompt carries the set.
- `str(data)` and `repr` renderings of dicts and lists inside prompts and results: kept as the structured value.
- Rewriter.RewriteAllJobs: a selected value that is a JSON string or object is not a list of strings, and the model ends the pass with `Raised`. The source iterates a string's characters or an object's keys as bullets and stores the value as it is, with no exception.
- Rewriter.RewriteAllJobs: the entries are values; the in-place update of the caller's `ExperienceItem` objects, and the aliasing of the returned list with them, are not modelled.
- Text.Capitalize: `capitalize()` is modelled with ASCII case mapping only. Non-ASCII letters, title-case characters and the special cases of Unicode casing (such as `ß`) are left out.
- Pydantic's lax coercions, in `Parser.ValidateResume` and `Auditor.ValidateAudit`, are left out: a `str` field accepts only a JSON string, and an `int` only a JSON integer, with no numeric strings, integral floats or booleans.
- Floating-point JSON numbers: decoded numbers are integers only.
- Duplicate keys in a JSON object: the decoder is assumed to have made keys distinct, as `json.loads` does by keeping the last duplicate.
