# Smart PDF Extractor — a verified model of its intent, prompt and export logic

Smart PDF Extractor is a Streamlit page. A user uploads a PDF and fills in a short
form: what they need, which entities to pull out (comma-separated), an output
style and free-form notes. From the form it builds an instruction prompt, sends
prompt and document to a language model, and offers the answer as a Markdown
download. This project models the parts of `main.py` that are logic rather than
glue. Each is proved against the behaviour the code has.

- **Intent construction** (`intent.dfy`, on top of `text.dfy`). The goal and the notes are
  stripped with Python's `str.strip()`. The entities text is split on `,`, every token is
  stripped and blank tokens are dropped. A form whose stripped goal is empty is refused.
- **Session lifecycle** (`session.dfy`). The class `SessionState` holds the two
  `st.session_state` entries `intent_submitted` and `user_intent`.
  - `Init` sets their defaults.
  - `Submit` handles a submitted form.
  - `Collect` is one run of `collect_user_intent`. It returns `Ready(intent)`, `Rerun` or `Halt`
    in place of returning the dictionary, calling `st.rerun()` or calling `st.stop()`.
  - `Reset` is the "Extract Another PDF" button.
- **Prompt builder** (`prompt.dfy`). `build_system_prompt` is a fixed template; the intent's
  values fill its gaps.
  - The template text is kept verbatim, directive numbering 1, 2, 3, 4, 6, 7 included.
  - The prompt is stated as the concatenation of fixed pieces and value lines.
  - Containment lemmas show where the goal, the style, the entities and the notes appear, and
    which fallback marker appears.
  - A reader lemma shows the values can be read back out of the prompt.
- **Export filename** (`export.dfy`). `extracted_YYYYMMDD_HHMMSS.md` for a given date-time,
  every field zero-padded. A parser and both round trips show the name determines the
  date-time.

Python semantics followed:
- Whitespace is the set of characters CPython's `str.isspace` accepts.
- `"".split(",")` is `[""]`.
- An empty dictionary, an empty list and an empty string are falsy (`notes or "None"`,
  `", ".join(...) or "None specified"`).
- `user_intent` is modelled as `Option<Intent>`: `None` stands for `{}`.
- Each session entry is a `Slot` that may be `Absent`, the case `key not in st.session_state`.

Three details of the prompt text as `main.py` writes it, kept as they are:
- The fallback markers are `None specified` and `None`, capitalised (main.py:29-30).
- "Begin your response with a short 1-sentence summary…" is a paragraph of its own after the
  numbered directives, not a numbered directive (main.py:40).
- The directives are numbered 1, 2, 3, 4, 6, 7, with no 5 (main.py:33-38).

## Model

| member | source | states |
|---|---|---|
| Text.Strip | main.py:82-88 | `s.strip()`: the result has no whitespace at either end; it is the slice of `s` left after removing the whitespace on each side; it is empty exactly when `s` is all whitespace |
| Text.StripUnique | main.py:82-88 | for a trimmed string between two whitespace runs, `strip()` returns exactly that string |
| Text.StripIdempotent | main.py:82-88 | stripping an already stripped value changes nothing |
| Text.Split | main.py:85 | `s.split(c)` returns at least one piece; no piece holds `c`; every character of a piece comes from `s` |
| Text.SplitAppend | main.py:85 | the pieces of `a + c + b` split on `c` are the pieces of `a` followed by the pieces of `b` |
| Text.Join | main.py:29 | `sep.join(parts)` is empty, so falsy, exactly when every part is empty and no non-empty separator stands between two of them |
| Text.JoinSplit | main.py:85 | joining the pieces of `s.split(c)` with `c` gives `s` back |
| Text.SplitJoin | main.py:85 | splitting a `c`-join of `c`-free parts gives the parts back |
| Intent.StyleName | main.py:68-72 | every label the selector offers is non-empty and holds no line break |
| Intent.SelectorOptions | main.py:68-72 | the selector lists each of the five styles exactly once, under the labels "Bullet list", "Numbered list", "Table", "Paragraph summary", "JSON" in that order, and starts on "Bullet list" (`index=0`) |
| Intent.StyleNameInjective | main.py:70 | no two styles share a label, so the stored label determines the choice |
| Intent.GoalGiven | main.py:82 | the guard `goal.strip()` is truthy exactly when the goal holds a character that is not whitespace |
| Intent.StripNonBlank | main.py:85 | `[t.strip() for t in tokens if t.strip()]` is no longer than `tokens`; each element is non-empty and trimmed; each is comma-free when the tokens are |
| Intent.StripNonBlankAppend | main.py:85 | the comprehension maps a concatenation of token lists to the concatenation of the results, so it keeps the tokens' order and handles each token on its own |
| Intent.StripNonBlankSingle | main.py:85 | one token gives `[t.strip()]`, or nothing when it is blank; together with `StripNonBlankAppend` this fixes the result for every token list |
| Intent.ParseEntities | main.py:85 | every parsed entity is non-empty, has no whitespace at either end and contains no comma |
| Intent.ParseEntitiesComma | main.py:85 | the entities of `a + "," + b` are those of `a` followed by those of `b` |
| Intent.ParseEntitiesToken | main.py:85 | a text with no comma gives its stripped self as the one entity, or no entity when it is blank; with `ParseEntitiesComma` this determines the entities of every text |
| Intent.ParseSkipsBlankToken | main.py:85 | a blank token between two commas is dropped without moving anything: `a, ,b` parses as `a,b` does |
| Intent.ParseEntitiesEmpty | main.py:85 | the entity list is empty exactly when the text is nothing but commas and whitespace |
| Intent.EntitiesRoundTrip | main.py:85 | text written as `", ".join(entities)` parses back to the same entities, in the same order |
| Intent.ParseEntitiesIdempotent | main.py:85 | re-parsing the joined parse result gives the same list |
| Intent.MakeIntent | main.py:82-88 | the stored intent keeps the selected style; it holds a trimmed goal, trimmed notes and parsed entities; it is well-formed exactly when the submitted goal is not blank |
| Intent.MakeIntentRoundTrip | main.py:82-88 | a well-formed intent, typed back into the form with its entities joined by `", "`, is rebuilt unchanged and passes the goal guard |
| Prompt.BuildPrompt | main.py:18-41 | the prompt holds the goal line, the style line, the entities line (joined or marker), the notes line (notes or marker) and the "Present the answer in STYLE format." directive; it also holds the goal and the style literally |
| Prompt.EntitiesField | main.py:29 | `", ".join(entities) or "None specified"` is never empty; it is `None specified` for no entities and the joined list once there are two entities or one non-empty entity |
| Prompt.NotesField | main.py:30 | `notes or "None"` is never empty; it is the notes unless they are empty, and `None` when they are |
| Prompt.PromptFallbacks | main.py:29-30 | with no entities the entities line ends in `None specified`, otherwise in the `", "`-joined entities; with empty notes the notes line ends in `None`, otherwise in the notes |
| Prompt.EntitiesFieldFallback | main.py:29 | for parsed entities the `or` fallback fires exactly when the list is empty |
| Prompt.ReadFieldsOfFill | main.py:23-41 | for any template, the goal, style, entities and notes of an intent without line breaks are read back from the filled template in order |
| Prompt.PromptReadsBack | main.py:23-41 | the values are read back from the real prompt, and a non-empty entity line parses back into the intent's entities |
| Prompt.InvoiceIntent | main.py:82-88 | the form "List all invoice totals" / "Invoice Number, Total" / Table / "" gives the intent with entities `["Invoice Number", "Total"]` and empty notes |
| Prompt.InvoiceEntities | main.py:85 | `"Invoice Number, Total"` parses to `["Invoice Number", "Total"]` |
| Prompt.InvoicePrompt | main.py:27-30 | that intent's prompt contains `Invoice Number, Total`, `Table` and the notes line with `None` |
| Export.Digits | main.py:156 | a number is written with exactly the given number of decimal digits |
| Export.DigitsValueOfDigits | main.py:156 | a zero-padded number that fits its width reads back as itself |
| Export.DigitsOfDigitsValue | main.py:156 | a digit string is the zero-padded form of its own value at its own width |
| Export.DaysInMonth | main.py:156 | each month has 28 to 31 days, and February has 29 exactly in Gregorian leap years, as Python's `datetime` counts them; only dates that exist can be formatted or parsed |
| Export.ExportFilename | main.py:156 | the name has 28 characters: `extracted_`, eight date digits, `_`, six time digits, `.md` |
| Export.ExportFilenameRoundTrip | main.py:156 | parsing a filename gives back the date-time it was made from |
| Export.ParseExportFilenameSound | main.py:156 | a string that parses is exactly the filename of the date-time it gives, and that date-time exists in the calendar, so a name that gives a day its month lacks does not parse |
| Export.ExportFilenameInjective | main.py:156 | different date-times give different filenames |
| Session.SessionState.constructor | main.py:47-50 | a new session has neither entry set, and that state is valid |
| Session.SessionState.HasIntent | main.py:53 | in a valid state the guard `intent_submitted and user_intent` holds exactly when the flag is set, and the stored intent is then well-formed |
| Session.SessionState.Init | main.py:47-50 | a missing flag becomes `False`, a missing intent becomes `{}`, set entries are kept; validity is preserved |
| Session.SessionState.Submit | main.py:82-94 | with a non-blank goal, stores `MakeIntent(form)`, sets the flag and reruns; otherwise halts with the error message and changes neither entry |
| Session.SessionState.Collect | main.py:43-99 | a stored intent is returned with no state change; a valid submission is stored and reruns; a blank submission halts with the message; no submission halts with no intent; in both halt cases the entries are defaulted if unset and otherwise unchanged; a returned intent is always well-formed; validity is preserved |
| Session.SessionState.Reset | main.py:162-165 | whatever the prior state, the flag becomes `False`, the intent `{}` and the page reruns |

## Left out

- `get_genai_client` and the loading of `GOOGLE_API_KEY` from `.env` (main.py:8-16): environment access and construction of a foreign client.
- `process_pdf` (main.py:101-136): temporary files, network upload and the model call, all through APIs that are not part of this model.
- The JSON or Markdown rendering of the answer in `display_result` (main.py:143-150). It relies on `json.loads` and Streamlit rendering calls.
- The Streamlit widgets, the download button itself, the "Current Settings" expander and the page flow of `main` (main.py:153-159, 167-239): user interface only. The check `if not meta["goal"]` at line 226 never fires. `Session.SessionState.Collect` proves that every intent it returns is well-formed, and so has a non-empty goal.
- The Gemini model name and temperature constants: configuration of the foreign call.
- Prompt.BuildPrompt: models `textwrap.dedent(...).strip()` as fixed text only when no value contains a line break. A multi-line goal or note changes the common margin that dedent removes, and that library behaviour is not modelled. `PromptReadsBack` therefore requires `SingleLine`.
- `datetime.now()`: the clock is not modelled. The date-time is an input to `Export.ExportFilename`.
- Export.ExportFilename: always pads the year to four digits. CPython hands `%Y` to the platform's `strftime`, and some platforms write years below 1000 with fewer digits.
- `st.rerun()` and `st.stop()` do not end the run early here. They are the `Rerun` and `Halt` outcomes, and `st.error` is the message carried by `Halt`.
- Session.SessionState.Collect: requires `Valid()`. Under it, line 99 (return with the flag set but the dictionary empty) cannot be reached. Python would hand back `{}` there, which the page never produces.
- Entry of the style as free text: the selector offers exactly five labels, so the style is an enumeration.
