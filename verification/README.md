# Structured classifier: a Dafny model

This project models the pure part of `classify` in the LM Studio chapter of
holm-rs (`chapters/ch04_lmstudio_api/src/main.rs`). `classify` sends one
chat-completions request to an OpenAI-compatible server and reads back a
`ClassOut { label, reason }`. The request constrains the server's output with
a strict JSON Schema built from the caller's labels. The model splits the
function into the steps it is made of:

- `Json` (json.dfy): the JSON value type (`Null | Bool | Num | Str | Arr | Obj`).
  It also models serde_json's total indexing `v[key]` / `v[i]`, which yields
  `Null` instead of failing.
- `DebugFormat` (debug_format.dfy): Rust's `{:?}` formatting of the label
  slice, which is embedded in the user prompt. A reader that recovers the
  label list from the formatted text comes with it.
- `Schema` (schema.dfy): `BuildSchema(labels)`. A validator for the JSON
  Schema keywords the schema uses gives the schema an independent meaning.
- `Request` (request.dfy): `BuildBody(text, labels)`, made of the model id,
  the temperature, the `json_schema` response format, and the system and
  user messages.
- `Response` (response.dfy): `ExtractContent(resp)` reads
  `choices[0].message.content`, or gives the text `{}` when that is not a
  string. `DecodeClassOut(v)` does what serde's derived `Deserialize` for
  `ClassOut` does.
- `Classify` (classify.dfy): the whole round trip. The HTTP exchange (`send`)
  and the JSON text reader (`parse`) are function parameters.
  `ValidateReply` is the part after the exchange: extract, read, decode.

In a `Json` object, the members stay in the order they were written, and a
name may appear more than once. Two readings of an object need this:

- A reply body read into a `serde_json::Value` keeps the last member with a
  given name, so `Get` returns the last one.
- serde's struct decoding walks the members in order. It rejects a second
  `label` or `reason`, so `DecodeMembers` does the same.

Behaviour of `classify` that the model keeps exactly as written:

- Empty text and an empty label list are not rejected. `BuildBody` is total.
- The temperature is 0.7.
- A reply without string content is not reported as a "missing content"
  error of its own. The code falls back to the text `{}`, which then fails
  to decode with a missing `label` field. The result is still an error,
  never a default result (`Classify.NoContentIsAnError`).
- Decoding is not strict. Members other than `label` and `reason` are
  ignored (`Response.IgnoresOtherMembers`).
- The returned label is not checked against the caller's labels
  (`Classify.LabelNotRechecked`).
- The HTTP send fails only when the exchange itself fails. A non-success
  status is not an error: its JSON body goes through extraction and decoding
  like any other reply, so `send` is modelled as returning the body.

## Model

| member | source | states |
|---|---|---|
| Json.Get | chapters/ch04_lmstudio_api/src/main.rs:47 | `v[key]` never fails. It gives `Null` on a value that is not an object or an object without the key; otherwise it gives the value of a member with that name |
| Json.LastValueIsLast | chapters/ch04_lmstudio_api/src/main.rs:46-47 | when a reply names a member twice, indexing sees the last one, as a `Value` built from the reply keeps it |
| Json.GetDistinct | chapters/ch04_lmstudio_api/src/main.rs:47 | in an object whose member names are distinct, indexing by a member's name finds that member's value |
| DebugFormat.ParseDebugList | chapters/ch04_lmstudio_api/src/main.rs:27 | the `{:?}` form of the label slice can be read back to exactly the labels (same texts, same order), whatever characters they contain |
| DebugFormat.EscapePlain | chapters/ch04_lmstudio_api/src/main.rs:27 | a label made only of printable ASCII characters other than `"` and `\` appears in the prompt unchanged between double quotes |
| Schema.EnumIsLabels | chapters/ch04_lmstudio_api/src/main.rs:20 | the schema's `properties.label.enum` reads back as exactly the caller's labels, in order, with nothing normalised |
| Schema.FixedShape | chapters/ch04_lmstudio_api/src/main.rs:16-24 | for every label list, the schema is of type object, has `additionalProperties` false, requires `label` and `reason`, and types both as strings |
| Schema.SchemaDeterminedByLabels | chapters/ch04_lmstudio_api/src/main.rs:16-24 | two schemas are equal exactly when they were built from the same labels, so the schema depends on the labels alone |
| Schema.ValidatesIffClassification | chapters/ch04_lmstudio_api/src/main.rs:16-24 | a value is valid against the schema exactly when it is an object that has `label` and `reason`, whose `label` members are strings among the labels, whose `reason` members are strings, and that has no other member |
| Request.PromptRoundTrip | chapters/ch04_lmstudio_api/src/main.rs:27 | the user message determines both the labels and the text: reading it back gives both exactly |
| Request.PromptEndsWithText | chapters/ch04_lmstudio_api/src/main.rs:27 | the user message starts with `Labels: ` and ends with `\nText:\n` followed by the text, unchanged |
| Request.BodyCarriesSchema | chapters/ch04_lmstudio_api/src/main.rs:29-35 | the body names the model `gemma-3-270m-it` and temperature 0.7. Its response format is of type `json_schema`, is named `classification`, and embeds the labels' schema unchanged |
| Request.BodyMessages | chapters/ch04_lmstudio_api/src/main.rs:26-42 | there are exactly two messages: the `system` message with the fixed instruction, then the `user` message, from which the labels and the text read back |
| Request.BodyDeterminedByInputs | chapters/ch04_lmstudio_api/src/main.rs:26-43 | two request bodies are equal exactly when they come from the same text and the same labels |
| Request.TextOnlyInUserMessage | chapters/ch04_lmstudio_api/src/main.rs:29-43 | requests for the same labels agree on model, temperature, response format and system message, whatever the text |
| Response.ExtractFound | chapters/ch04_lmstudio_api/src/main.rs:47-49 | a reply whose first choice's message has a string `content` yields that string |
| Response.ExtractFallsBack | chapters/ch04_lmstudio_api/src/main.rs:47-49 | extraction gives `{}` for a reply that is not an object, has no `choices` array, has an empty one, has no object `message`, has no `content`, or has a `content` that is not a string |
| Response.ExtractedContentIsFound | chapters/ch04_lmstudio_api/src/main.rs:47-49 | any extracted text other than `{}` is the string `content` member of the object `message` of the first element of the reply's `choices` array |
| Response.DecodeMembers | chapters/ch04_lmstudio_api/src/main.rs:9-13 | walking an object's members succeeds exactly when every `label`/`reason` member is a string and each field occurs once (none if already decoded); the result holds those members' strings |
| Response.DecodeClassOut | chapters/ch04_lmstudio_api/src/main.rs:50 | an object decodes exactly when it names `label` once and `reason` once, both strings, and the result holds those strings. A two-string array decodes to its elements. Any other value is an invalid-type error |
| Response.EmptyObjectFails | chapters/ch04_lmstudio_api/src/main.rs:49-50 | the fallback `{}` fails to decode, with `label` missing |
| Response.MissingFieldFails | chapters/ch04_lmstudio_api/src/main.rs:10-12 | an object without `label`, or without `reason`, never decodes |
| Response.IgnoresOtherMembers | chapters/ch04_lmstudio_api/src/main.rs:9-13 | inserting a member other than `label`/`reason` anywhere changes neither the decoded result nor the error |
| Response.DecodeAgreesWithIndexing | chapters/ch04_lmstudio_api/src/main.rs:10-12 | with distinct member names, the decoded strings are the ones indexing finds under `label` and `reason` |
| Response.DuplicateLabelFails | chapters/ch04_lmstudio_api/src/main.rs:9-13 | an object with a second `label` after a first `label` string is rejected as a duplicate, even when both are strings, provided no member before the second `label` fails first: no other `label`, every `reason` a string, at most one `reason` |
| Classify.NoContentIsAnError | chapters/ch04_lmstudio_api/src/main.rs:47-50 | a reply without string content ends in the decoding error "missing `label`", never in a result |
| Classify.ResultHasSource | chapters/ch04_lmstudio_api/src/main.rs:45-52 | every result comes from a successful exchange whose reply had string content, and that content parsed to a value holding the result's two strings |
| Classify.HonouredSchemaSucceeds | chapters/ch04_lmstudio_api/src/main.rs:47-52 | when the content parses to an object that is valid against the labels' schema and has distinct member names, validating the reply succeeds with one of the caller's labels, and the result holds the strings indexing finds under `label` and `reason` |
| Classify.HonouredRequestSucceeds | chapters/ch04_lmstudio_api/src/main.rs:15-52 | when the content is valid against the schema the request carries and has distinct member names, the whole classification succeeds with one of the caller's labels |
| Classify.LabelNotRechecked | chapters/ch04_lmstudio_api/src/main.rs:50-52 | content whose label is not in the caller's list still decodes into that label and reason, with or without an extra member |
| Classify.SchemaRejectsOutOfList | chapters/ch04_lmstudio_api/src/main.rs:16-24 | the schema sent rejects that content, both for a label outside the list and for an extra member |
| Classify.ExampleSucceeds | chapters/ch04_lmstudio_api/src/main.rs:46-52 | the example reply, whose content is `{"label":"confusion","reason":"The review expresses ambiguity about tone."}`, yields that label and that reason |
| Classify.ExampleWithoutContentFails | chapters/ch04_lmstudio_api/src/main.rs:47-50 | a reply whose only choice has an empty `message` fails with a missing `label` |

## Left out

- The HTTP POST through `reqwest::blocking::Client` to the fixed local URL (main.rs:2, 6, 45-46) is network I/O. It is the `send` parameter, and any transport or body-reading failure is `Transport(cause)`.
- Reading JSON text (`serde_json::from_str`, `.json()`) and writing it (the request's serialisation) are library code. Reading text is the `parse` parameter; writing is not modelled. The model assumes `parse` keeps an object's members in written order and reads `{}` as the empty object.
- When content text is both malformed JSON and of the wrong shape, serde reports whichever problem comes first in the text. The model always reports `NotJson`, so only the error kind may differ; success and failure are the same.
- serde's error messages, line and column positions, and the `anyhow` wrapping are not modelled. Errors are kept as kinds (`DecodeError`, `ClassifyError`).
- Member order in the serialised request is not modelled (serde_json writes map keys in sorted order). The model lists members in source order, and JSON objects are unordered.
- The temperature is the decimal constant 7 × 10^-1. No floating-point behaviour is modelled.
- `{:?}` escaping is exact for ASCII. Characters outside ASCII are written unchanged, because Rust's escaping of non-printable and grapheme-extending Unicode characters depends on Unicode tables that are not part of this model.
- `main` (main.rs:55-66) hard-codes an example and prints. Only its expected reply is modelled, in `Classify.ExampleSucceeds`, which holds for any text and labels.
- Schema.Validates covers only the keywords the classification schema uses (`type`, `enum`, `required`, `properties`, `additionalProperties` and boolean schemas). It is not a full JSON Schema validator.
- DecodeClassOut: the contract says when decoding succeeds and what it returns, and that non-object, non-array values are invalid-type errors. Which error an object or array failure reports is left to the body and to the lemmas about particular cases.
- Response.DecodeMembers: the same applies. Error kinds are stated only by `EmptyObjectFails` and `DuplicateLabelFails`.
