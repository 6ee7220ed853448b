/** The chat-completions request the classifier sends
    (chapters/ch04_lmstudio_api/src/main.rs:7, 26-43): the fixed model id and
    temperature, the classification schema as a `json_schema` response format,
    and a system message followed by a user message.
 */
module Request {

  import opened Wrappers
  import opened Json
  import opened DebugFormat
  import opened Schema

  /** The model id every request names. */
  const ModelId: string := "gemma-3-270m-it"

  /** The sampling temperature 0.7, as the decimal 7 * 10^-1. */
  const Temperature: Json := Num(7, -1)

  /** The name under which the schema is sent. */
  const SchemaName: string := "classification"

  /** The fixed system instruction. */
  const SystemPrompt: string :=
    "You are a careful text classifier. Choose exactly one label from the list and explain briefly."

  const LabelsHeader: string := "Labels: "
  const TextHeader: string := "\nText:\n"

  /** The user message: the label list in Rust's `{:?}` form, then the text
      exactly as given. */
  function UserPrompt(text: string, labels: seq<string>): string
  {
    LabelsHeader + DebugList(labels) + TextHeader + text
  }

  /** One chat message. */
  function Message(role: string, content: string): Json
  {
    Obj([("role", Str(role)), ("content", Str(content))])
  }

  /** The request body. No input is rejected: empty text and an empty label
      list both give a request. */
  function BuildBody(text: string, labels: seq<string>): (body: Json)
  {
    Obj([
      ("model", Str(ModelId)),
      ("temperature", Temperature),
      ("response_format", Obj([
        ("type", Str("json_schema")),
        ("json_schema", Obj([("name", Str(SchemaName)), ("schema", BuildSchema(labels))]))
      ])),
      ("messages", Arr([Message("system", SystemPrompt), Message("user", UserPrompt(text, labels))]))
    ])
  }

  // ---------------------------------------------------------------------
  // Reading a request back

  /** Splits a user message into the label list and the text, or `None` when
      it does not have the user message's layout. */
  function ParsePrompt(p: string): Option<(seq<string>, string)>
  {
    if |p| < |LabelsHeader| || p[..|LabelsHeader|] != LabelsHeader then None
    else match ParseList(p[|LabelsHeader|..])
      case None => None
      case Some((labels, rest)) =>
        if |rest| < |TextHeader| || rest[..|TextHeader|] != TextHeader then None
        else Some((labels, rest[|TextHeader|..]))
  }

  /** The schema a request body carries, read through serde_json indexing. */
  function RequestSchema(body: Json): Json
  {
    Get(Get(Get(body, "response_format"), "json_schema"), "schema")
  }

  /** The user message recovers both inputs: the label list, exactly, and the
      text, verbatim; nothing in a label can run into the text. */
  lemma PromptRoundTrip(text: string, labels: seq<string>)
    ensures ParsePrompt(UserPrompt(text, labels)) == Some((labels, text))
  {
    var p := UserPrompt(text, labels);
    var rest := TextHeader + text;
    assert p == LabelsHeader + (DebugList(labels) + rest);
    assert p[..|LabelsHeader|] == LabelsHeader;
    assert p[|LabelsHeader|..] == DebugList(labels) + rest;
    ParseDebugList(labels, rest);
    assert rest[..|TextHeader|] == TextHeader;
    assert rest[|TextHeader|..] == text;
  }

  /** The text is the user message's suffix, unchanged, after the labels
      header and the text header. */
  lemma PromptEndsWithText(text: string, labels: seq<string>)
    ensures |UserPrompt(text, labels)| >= |text| + |LabelsHeader| + |TextHeader|
    ensures UserPrompt(text, labels)[..|LabelsHeader|] == LabelsHeader
    ensures UserPrompt(text, labels)[|UserPrompt(text, labels)| - |text|..] == text
    ensures UserPrompt(text, labels)[|UserPrompt(text, labels)| - |text| - |TextHeader|..|UserPrompt(text, labels)| - |text|] == TextHeader
  {
    var p := UserPrompt(text, labels);
    var d := DebugList(labels);
    assert p == LabelsHeader + d + TextHeader + text;
    assert p[|p| - |text|..] == text;
    assert p[|p| - |text| - |TextHeader|..|p| - |text|] == TextHeader;
  }

  lemma MessageLookups(role: string, content: string)
    ensures Get(Message(role, content), "role") == Str(role)
    ensures Get(Message(role, content), "content") == Str(content)
  {
    var ms := Message(role, content).members;
    GetDistinct(ms, 0);
    GetDistinct(ms, 1);
  }

  /** The body names the fixed model and temperature, and its response format
      is of type `json_schema`, named `classification`, and carries the schema
      built from the labels unchanged. */
  lemma BodyCarriesSchema(text: string, labels: seq<string>)
    ensures Get(BuildBody(text, labels), "model") == Str("gemma-3-270m-it")
    ensures Get(BuildBody(text, labels), "temperature") == Num(7, -1)
    ensures Get(Get(BuildBody(text, labels), "response_format"), "type") == Str("json_schema")
    ensures Get(Get(Get(BuildBody(text, labels), "response_format"), "json_schema"), "name") == Str("classification")
    ensures RequestSchema(BuildBody(text, labels)) == BuildSchema(labels)
    ensures EnumLabels(RequestSchema(BuildBody(text, labels))) == Some(labels)
  {
    var ms := BuildBody(text, labels).members;
    assert DistinctKeys(ms);
    GetDistinct(ms, 0);
    GetDistinct(ms, 1);
    GetDistinct(ms, 2);
    var rf := ms[2].1.members;
    assert DistinctKeys(rf);
    GetDistinct(rf, 0);
    GetDistinct(rf, 1);
    var js := rf[1].1.members;
    assert DistinctKeys(js);
    GetDistinct(js, 0);
    GetDistinct(js, 1);
    EnumIsLabels(labels);
  }

  /** There are exactly two messages: first the system instruction, then the
      user message, from which the labels and the text read back exactly. */
  lemma BodyMessages(text: string, labels: seq<string>)
    ensures Get(BuildBody(text, labels), "messages").Arr?
    ensures |Get(BuildBody(text, labels), "messages").items| == 2
    ensures Get(At(Get(BuildBody(text, labels), "messages"), 0), "role") == Str("system")
    ensures Get(At(Get(BuildBody(text, labels), "messages"), 0), "content") == Str(SystemPrompt)
    ensures Get(At(Get(BuildBody(text, labels), "messages"), 1), "role") == Str("user")
    ensures Get(At(Get(BuildBody(text, labels), "messages"), 1), "content").Str?
    ensures ParsePrompt(Get(At(Get(BuildBody(text, labels), "messages"), 1), "content").s) == Some((labels, text))
  {
    var ms := BuildBody(text, labels).members;
    assert DistinctKeys(ms);
    GetDistinct(ms, 3);
    MessageLookups("system", SystemPrompt);
    MessageLookups("user", UserPrompt(text, labels));
    PromptRoundTrip(text, labels);
  }

  /** Two requests are equal exactly when they were built from the same text
      and the same labels. */
  lemma BodyDeterminedByInputs(text1: string, labels1: seq<string>, text2: string, labels2: seq<string>)
    ensures BuildBody(text1, labels1) == BuildBody(text2, labels2) <==> text1 == text2 && labels1 == labels2
  {
    if BuildBody(text1, labels1) == BuildBody(text2, labels2) {
      assert UserPrompt(text1, labels1) == UserPrompt(text2, labels2) by {
        assert BuildBody(text1, labels1).members[3].1.items[1].members[1].1.s == UserPrompt(text1, labels1);
      }
      PromptRoundTrip(text1, labels1);
      PromptRoundTrip(text2, labels2);
    }
  }

  /** The text reaches the request only through the user message: requests
      for the same labels agree on the model, the temperature, the response
      format and the system message. */
  lemma TextOnlyInUserMessage(text1: string, text2: string, labels: seq<string>)
    ensures Get(BuildBody(text1, labels), "response_format") == Get(BuildBody(text2, labels), "response_format")
    ensures Get(BuildBody(text1, labels), "model") == Get(BuildBody(text2, labels), "model")
    ensures Get(BuildBody(text1, labels), "temperature") == Get(BuildBody(text2, labels), "temperature")
    ensures At(Get(BuildBody(text1, labels), "messages"), 0) == At(Get(BuildBody(text2, labels), "messages"), 0)
  {
    var ms1 := BuildBody(text1, labels).members;
    var ms2 := BuildBody(text2, labels).members;
    assert DistinctKeys(ms1) && DistinctKeys(ms2);
    GetDistinct(ms1, 0);
    GetDistinct(ms1, 1);
    GetDistinct(ms1, 2);
    GetDistinct(ms1, 3);
    GetDistinct(ms2, 0);
    GetDistinct(ms2, 1);
    GetDistinct(ms2, 2);
    GetDistinct(ms2, 3);
  }
}
