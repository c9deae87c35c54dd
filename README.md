# BoltClone chat component — a verified model of its submission logic

BoltClone is a React component: the user types a request, the component sends
the conversation to a chat-completion endpoint, records the reply in the
transcript, pulls a fenced code block out of the reply and shows it in a
preview frame. This project models the two parts of
`src/components/BoltCloneBoltClone.tsx` that have behaviour worth stating:

- **the code-block extractor** (`extraction.dfy`, module `Extraction`): the reply
  is searched for `/```html\n([\s\S]*?)\n```/`, then for `/```([\s\S]*?)```/`,
  and the first capture found becomes the preview markup; a reply with neither
  is used whole. The two regular expressions are modelled by substring search
  (`MatchFence`), and their meaning — leftmost start, then the shortest lazy
  capture — is stated separately (`IsMatch`, `IsFirstMatch`) and proved to be
  what the search computes;
- **`sendMessage`** (`chat.dfy`, module `Chat`): a class `BoltClone` with the
  component's state (`messages`, `input`, `apiKey`, `isLoading`,
  `generatedCode`). The method is split at its `await`: `Submit` validates,
  records the user's turn, clears the input, sets `isLoading` and returns the
  message list the request carries; `Settle` takes the request's outcome as a
  `Reply` value, appends the assistant's turn, updates the preview on success
  and clears `isLoading`. `SendMessage` runs the two in sequence. The object
  invariant `Valid()` says the transcript is alternating user/assistant
  exchanges (plus the pending user turn while loading) and that the preview
  markup, when not empty, is the extraction of one of the transcript's
  assistant turns.

`strings.dfy` (module `Strings`) holds the JavaScript string behaviour these
rely on: substring search, `String.prototype.trim` with ECMAScript's full
whitespace and line-terminator set, and the decimal rendering of the HTTP
status in `API Error: ${response.status}`. `wrappers.dfy` (module `Wrappers`) holds the
`Option` type of results that may be absent. `scenarios.dfy` drives the class
through three sessions (a successful html reply, a failed fetch, a blank
input) using only the contracts.

In these places the model follows what the code does rather than what one
might expect of such a component:
- after a failed request the preview keeps the markup of an earlier reply, so
  the preview is derived from the latest *successful* reply, not from the
  latest assistant turn;
- there is no separate authentication error: any non-2xx status becomes the
  message `API Error: <status>`, and any exception keeps its own message;
- `sendMessage` does not itself refuse a second submission while loading;
  only the UI does (the input and button are disabled, lines 231, 234 and
  238). The model states this as the precondition `!isLoading` of `Submit`
  and `SendMessage`;
- the preview frame is created with `sandbox="allow-scripts allow-same-origin"`
  (line 284), which does not withhold same-origin access; the frame is not
  part of this model.

## Model

| member | source | states |
|---|---|---|
| `Strings.FindFrom` | src/components/BoltCloneBoltClone.tsx:98-99 | the result is the leftmost index at or after `from` where the pattern occurs, and None exactly when it occurs nowhere from there |
| `Strings.TrimStart` | src/components/BoltCloneBoltClone.tsx:56 | the result is the suffix of the input that begins at its first non-whitespace character; everything dropped is whitespace |
| `Strings.TrimEnd` | src/components/BoltCloneBoltClone.tsx:56 | the result is the prefix of the input that ends at its last non-whitespace character; everything dropped is whitespace |
| `Strings.Trim` | src/components/BoltCloneBoltClone.tsx:56 | `input.trim()` is a contiguous piece of the input; everything dropped from either end is whitespace, and the piece is empty or neither starts nor ends with whitespace |
| `Strings.TrimEmptyIff` | src/components/BoltCloneBoltClone.tsx:56 | `input.trim()` is empty exactly when every character of the input is whitespace |
| `Strings.NatToString` | src/components/BoltCloneBoltClone.tsx:89 | the status is printed as a non-empty string of decimal digits with no leading zero |
| `Strings.NatToStringRoundTrip` | src/components/BoltCloneBoltClone.tsx:89 | reading the printed digits back gives the status: the rendering loses nothing |
| `Extraction.MatchFence` | src/components/BoltCloneBoltClone.tsx:98-99 | the search reports the regular expression's match: leftmost start, then shortest capture ending at the first closer at or after the opener's end; it fails exactly when no opener is followed by a closer |
| `Extraction.MatchFenceIsFirst` | src/components/BoltCloneBoltClone.tsx:98-99 | the first match is unique: any first match is the one the search reports |
| `Extraction.CaptureExcludesClose` | src/components/BoltCloneBoltClone.tsx:98-99 | a lazy capture never contains its closing delimiter |
| `Extraction.HtmlMatchIsFenceMatch` | src/components/BoltCloneBoltClone.tsx:98-99 | every html-labelled block is also a generic fenced block, so the generic pattern matches whenever the html one does |
| `Extraction.Extract` | src/components/BoltCloneBoltClone.tsx:97-105 | the preview markup is a contiguous piece of the reply; it is the whole reply exactly when the generic pattern finds no fenced block, and strictly shorter whenever the html or the generic pattern matches |
| `Extraction.NoFenceKeepsReply` | src/components/BoltCloneBoltClone.tsx:98-105 | a reply without "```" is returned unchanged, and extracting twice equals extracting once |
| `Extraction.HtmlBlockFirst` | src/components/BoltCloneBoltClone.tsx:98-102 | when the html pattern matches, the result is the text between its first opener and the nearest closer after it, whatever generic fences come earlier |
| `Extraction.FenceBlockSecond` | src/components/BoltCloneBoltClone.tsx:98-102 | when the html pattern does not match, the result is the capture of the first generic fenced block |
| `Extraction.ExtractHasNoCloser` | src/components/BoltCloneBoltClone.tsx:98-102 | an html capture contains no "\n```", a generic capture no "```" |
| `Extraction.NoNewlineNoCloser` | src/components/BoltCloneBoltClone.tsx:98 | text without a line break never holds the html closer "\n```", so such a body survives the html round trip |
| `Extraction.HtmlRoundTrip` | src/components/BoltCloneBoltClone.tsx:98-102 | fencing a body as an html block and extracting returns the body, for any body without "\n```" |
| `Extraction.ClosersDoNotOverlap` | src/components/BoltCloneBoltClone.tsx:98 | two occurrences of the html closer "\n```" never overlap |
| `Extraction.EmptyHtmlBlock` | src/components/BoltCloneBoltClone.tsx:98-102 | "```html\n\n```" yields the empty string |
| `Extraction.HtmlFenceWithoutBody` | src/components/BoltCloneBoltClone.tsx:98-102 | "```html\n```" fails the html pattern and yields the generic capture "html\n" |
| `Chat.Accepts` | src/components/BoltCloneBoltClone.tsx:56-59 | a submission goes ahead exactly when the input has a non-whitespace character and the key is not empty |
| `Chat.AcceptsText` | src/components/BoltCloneBoltClone.tsx:56 | an input whose first character is not whitespace is accepted once a key has been entered |
| `Chat.Outbound` | src/components/BoltCloneBoltClone.tsx:77-84 | the request carries the transcript unchanged, then the user's turn, then the fixed instruction turn |
| `Chat.ErrorMessage` | src/components/BoltCloneBoltClone.tsx:88-89 | an error is raised exactly when the response status is outside 200-299 or an exception occurred; an exception keeps its own message |
| `Chat.StatusNotice` | src/components/BoltCloneBoltClone.tsx:88-89 | a failed status is reported as "API Error: " followed by digits that read back as the status |
| `Chat.ErrorNotice` | src/components/BoltCloneBoltClone.tsx:109-112 | the notice is "Ошибка: ", then the error's message verbatim, then ". Проверьте API ключ и попробуйте снова." |
| `Chat.ReplyTurn` | src/components/BoltCloneBoltClone.tsx:95-112 | the turn added after a request is an assistant turn holding the raw text on success, and otherwise the error notice built from "API Error: <status>" or the exception's message |
| `Chat.DialogueGrows` | src/components/BoltCloneBoltClone.tsx:61-62 | one user turn followed by one assistant turn keeps the transcript a sequence of exchanges, one exchange longer |
| `Chat.PendingAfterQuestion` | src/components/BoltCloneBoltClone.tsx:61-62 | appending the user's turn to completed exchanges leaves exactly one turn awaiting an answer |
| `Chat.AnswerCompletes` | src/components/BoltCloneBoltClone.tsx:95-112 | appending an assistant turn to a pending transcript completes the exchange |
| `Chat.ArtifactKept` | src/components/BoltCloneBoltClone.tsx:107-112 | appending a turn keeps the preview markup tied to the assistant turn it was extracted from |
| `Chat.QuestionKeeps` | src/components/BoltCloneBoltClone.tsx:60-64 | recording the user's turn and starting to load keeps the transcript a dialogue with one pending question and keeps the preview tied to its turn |
| `Chat.AnswerKeeps` | src/components/BoltCloneBoltClone.tsx:95-114 | appending the reply's turn and ending the load keeps the invariant; the preview comes from that new turn exactly when the request succeeded and is otherwise kept |
| `Chat.BoltClone.constructor` | src/components/BoltCloneBoltClone.tsx:5-10 | the component starts with an empty transcript, input, key and preview, not loading |
| `Chat.BoltClone.Submit` | src/components/BoltCloneBoltClone.tsx:56-84 | a blank input or empty key changes nothing and sends nothing; otherwise the untrimmed input is appended as a user turn, the input is cleared, loading starts, and the request is the old transcript, that turn and the instruction |
| `Chat.BoltClone.RecordQuestion` | src/components/BoltCloneBoltClone.tsx:60-64 | the untrimmed input is appended as a user turn, the input is cleared and loading starts; key and preview are unchanged |
| `Chat.BoltClone.Settle` | src/components/BoltCloneBoltClone.tsx:88-114 | exactly one assistant turn is appended: the raw reply on success, with the preview set to its extraction; "Ошибка: <message>. Проверьте API ключ и попробуйте снова." otherwise, with "API Error: <status>" for a failed status and the preview unchanged; loading ends in every case |
| `Chat.BoltClone.SendMessage` | src/components/BoltCloneBoltClone.tsx:55-116 | a refused submission changes nothing; an accepted one keeps the old transcript as a prefix, appends exactly the user turn and one assistant turn, clears the input, ends not loading and updates the preview only on success |

## Left out

- The network request (lines 67-93): `fetch`, the headers, the model name, the
  token budget and the JSON encoding and decoding are not modelled; `Submit`
  returns the message list the request would carry and `Settle` receives the
  outcome as a `Reply`.
- A response whose first content block has no text (line 93 reads `undefined`)
  is not modelled: there the source appends a turn without content at line 95,
  then line 98 throws and the catch appends an error turn as well. `Reply`
  always carries a string.
- `Settle`, `SendMessage`: the intermediate renders React makes between the
  state updates, its batching of them, and the stale `messages` captured by
  the request body (line 78) are not modelled; each method is one sequential
  step, which gives the same transcript.
- Saving and loading the key in `localStorage` (lines 15-18, 34-37): browser
  storage; the constructor starts with an empty key.
- Writing the preview into the iframe (lines 24-32) and the iframe's sandbox
  attribute (line 284): DOM and browser security policy.
- Copying and downloading the preview markup (lines 39-53): clipboard, timers
  and file download.
- The `alert` shown for a refused submission (line 57) and `console.error`
  (line 108): UI and logging; a refusal is visible as `Submit` returning None.
- Scrolling, the settings dialog and the rendering (lines 20-22, 118-300), and
  the onChange handlers that copy typed text into `input` and `apiKey`
  (lines 150, 230): UI; the scenarios assign the fields directly.
- JavaScript strings are sequences of UTF-16 code units while the model's are
  sequences of Unicode scalar values; every character the patterns and the
  whitespace set mention lies in the Basic Multilingual Plane, so the
  difference does not affect what is modelled.
- `src/main.tsx` only mounts the component and is not part of this model.
