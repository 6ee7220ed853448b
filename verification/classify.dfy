/** One classification round trip (chapters/ch04_lmstudio_api/src/main.rs:15-53):
    build the request, send it, extract the content, read it as JSON and
    decode it into a `ClassOut`.

    The two steps the model cannot see are parameters: `send` stands for the
    HTTP POST and the reading of the reply body as JSON (it fails only when
    the exchange itself fails), and `parse` stands for serde_json's reading of
    the content text (`None` for text that is not JSON).
 */
module Classify {

  import opened Wrappers
  import opened Json
  import opened Schema
  import opened Request
  import opened Response

  /** The ways a classification fails, each surfaced to the caller. */
  datatype ClassifyError =
    | Transport(cause: string)       // the exchange with the server failed
    | NotJson                        // the content text is not JSON
    | Shape(error: DecodeError)      // the content is JSON but not a ClassOut

  /** The whole classification. There is exactly one attempt, and nothing
      is checked before the request is sent. */
  function Classify(text: string, labels: seq<string>,
                    send: Json -> Result<Json, string>,
                    parse: string -> Option<Json>): Result<ClassOut, ClassifyError>
  {
    match send(BuildBody(text, labels))
    case Err(cause) => Err(Transport(cause))
    case Ok(resp) => ValidateReply(resp, parse)
  }

  /** The part of a classification after the exchange: extract the content,
      read it as JSON and decode it. */
  function ValidateReply(resp: Json, parse: string -> Option<Json>): Result<ClassOut, ClassifyError>
  {
    match parse(ExtractContent(resp))
    case None => Err(NotJson)
    case Some(v) =>
      match DecodeClassOut(v)
      case Err(e) => Err(Shape(e))
      case Ok(out) => Ok(out)
  }

  /** A reply without string content ends in a decoding error, never in a
      made-up result: the fallback `{}` lacks `label`. */
  lemma NoContentIsAnError(text: string, labels: seq<string>,
                           send: Json -> Result<Json, string>, parse: string -> Option<Json>)
    requires parse("{}") == Some(Obj([]))
    requires send(BuildBody(text, labels)).Ok?
    requires !ContentField(send(BuildBody(text, labels)).value).Str?
    ensures Classify(text, labels, send, parse) == Err(Shape(MissingField("label")))
  {
    EmptyObjectFails();
  }

  /** Every result comes from a reply that had string content, and from an
      object or array in that content holding the result's two strings. */
  lemma ResultHasSource(text: string, labels: seq<string>,
                        send: Json -> Result<Json, string>, parse: string -> Option<Json>)
    requires parse("{}") == Some(Obj([]))
    requires Classify(text, labels, send, parse).Ok?
    ensures send(BuildBody(text, labels)).Ok?
    ensures ContentField(send(BuildBody(text, labels)).value).Str?
    ensures parse(ContentField(send(BuildBody(text, labels)).value).s).Some?
    ensures var v := parse(ContentField(send(BuildBody(text, labels)).value).s).value;
            var out := Classify(text, labels, send, parse).value;
            (v.Obj? && ("label", Str(out.chosen)) in v.members && ("reason", Str(out.reason)) in v.members)
            || v == Arr([Str(out.chosen), Str(out.reason)])
  {
    var resp := send(BuildBody(text, labels)).value;
    if !ContentField(resp).Str? {
      NoContentIsAnError(text, labels, send, parse);
    }
  }

  /** When the server's content is valid against the labels' schema, with
      distinct member names, the reply yields one of the labels and the
      reason the server gave. */
  lemma HonouredSchemaSucceeds(labels: seq<string>, parse: string -> Option<Json>, resp: Json, v: Json)
    requires parse(ExtractContent(resp)) == Some(v)
    requires Validates(v, BuildSchema(labels))
    requires v.Obj? && DistinctKeys(v.members)
    ensures ValidateReply(resp, parse).Ok?
    ensures ValidateReply(resp, parse).value.chosen in labels
    ensures Get(v, "label") == Str(ValidateReply(resp, parse).value.chosen)
    ensures Get(v, "reason") == Str(ValidateReply(resp, parse).value.reason)
  {
    ValidatesIffClassification(v, labels);
    var ms := v.members;
    CountDistinct(ms, "label");
    CountDistinct(ms, "reason");
    DecodeAgreesWithIndexing(ms);
    var out := DecodeClassOut(v).value;
    var i :| 0 <= i < |ms| && ms[i] == ("label", Str(out.chosen));
    assert AllowedMember(ms[i], labels);
  }

  /** The same for a whole classification: when the server honours the
      schema the request carries, the result's label is one of the caller's. */
  lemma HonouredRequestSucceeds(text: string, labels: seq<string>,
                                send: Json -> Result<Json, string>, parse: string -> Option<Json>,
                                resp: Json, v: Json)
    requires send(BuildBody(text, labels)) == Ok(resp)
    requires parse(ExtractContent(resp)) == Some(v)
    requires Validates(v, RequestSchema(BuildBody(text, labels)))
    requires v.Obj? && DistinctKeys(v.members)
    ensures Classify(text, labels, send, parse).Ok?
    ensures Classify(text, labels, send, parse).value.chosen in labels
  {
    BodyCarriesSchema(text, labels);
    HonouredSchemaSucceeds(labels, parse, resp, v);
  }

  /** In an object with distinct member names, a name present occurs once. */
  lemma {:induction false} CountDistinct(ms: seq<(string, Json)>, key: string)
    requires DistinctKeys(ms)
    ensures Count(ms, key) <= 1
  {
    if |ms| > 0 {
      assert DistinctKeys(ms[1..]) by {
        forall i, j | 0 <= i < j < |ms[1..]| ensures ms[1..][i].0 != ms[1..][j].0 {
          assert ms[1..][i] == ms[i + 1] && ms[1..][j] == ms[j + 1];
        }
      }
      CountDistinct(ms[1..], key);
      if ms[0].0 == key {
        assert !HasKey(ms[1..], key) by {
          forall i | 0 <= i < |ms[1..]| ensures ms[1..][i].0 != key {
            assert ms[1..][i] == ms[i + 1];
          }
        }
      }
    }
  }

  /** The client does not re-check the label: content naming a label outside
      the caller's list decodes all the same, with or without an extra member
      (which the schema rejects: see `SchemaRejectsOutOfList`). */
  lemma LabelNotRechecked(labels: seq<string>, l: string, r: string, key: string, x: Json)
    requires l !in labels
    requires key != "label" && key != "reason"
    ensures DecodeClassOut(Obj([("label", Str(l)), ("reason", Str(r))])) == Ok(ClassOut(l, r))
    ensures DecodeClassOut(Obj([("label", Str(l)), ("reason", Str(r)), (key, x)])) == Ok(ClassOut(l, r))
  {
    var short := [("label", Str(l)), ("reason", Str(r))];
    assert short[1..] == [("reason", Str(r))];
    assert short[1..][1..] == [];
    IgnoresOtherMembers(short, [], key, x, None, None);
    assert short + [(key, x)] + [] == [("label", Str(l)), ("reason", Str(r)), (key, x)];
  }

  /** The schema the request carries rejects a label outside the caller's
      list, and rejects an extra member. */
  lemma SchemaRejectsOutOfList(labels: seq<string>, l: string, r: string, key: string, x: Json)
    requires l !in labels
    requires key != "label" && key != "reason"
    ensures !Validates(Obj([("label", Str(l)), ("reason", Str(r))]), BuildSchema(labels))
    ensures forall l' :: !Validates(Obj([("label", Str(l')), ("reason", Str(r)), (key, x)]), BuildSchema(labels))
  {
    var short := [("label", Str(l)), ("reason", Str(r))];
    ValidatesIffClassification(Obj(short), labels);
    assert !AllowedMember(short[0], labels);
    forall l' ensures !Validates(Obj([("label", Str(l')), ("reason", Str(r)), (key, x)]), BuildSchema(labels)) {
      var long := [("label", Str(l')), ("reason", Str(r)), (key, x)];
      ValidatesIffClassification(Obj(long), labels);
      assert !AllowedMember(long[2], labels);
    }
  }

  /** The reply the example in `main` expects, as the server would send it. */
  function ExampleReply(content: string): Json
  {
    Obj([("choices", Arr([Obj([("message", Obj([("content", Str(content))]))])]))])
  }

  const ExampleContent: string :=
    "{\"label\":\"confusion\",\"reason\":\"The review expresses ambiguity about tone.\"}"

  /** The example classification (labels "feature", "bug", "confusion"; the
      text is immaterial): a reply whose content reads as the object with
      `label` "confusion" gives that label and its reason, for any request. */
  lemma ExampleSucceeds(text: string, labels: seq<string>,
                        send: Json -> Result<Json, string>, parse: string -> Option<Json>)
    requires send(BuildBody(text, labels)) == Ok(ExampleReply(ExampleContent))
    requires parse(ExampleContent)
          == Some(Obj([("label", Str("confusion")), ("reason", Str("The review expresses ambiguity about tone."))]))
    ensures Classify(text, labels, send, parse)
         == Ok(ClassOut("confusion", "The review expresses ambiguity about tone."))
  {
    var resp := ExampleReply(ExampleContent);
    ExtractFound(resp.members, resp.members[0].1.items, resp.members[0].1.items[0].members,
                 resp.members[0].1.items[0].members[0].1.members, ExampleContent);
    var ms := parse(ExampleContent).value.members;
    assert ms[1..] == [("reason", Str("The review expresses ambiguity about tone."))];
    assert ms[1..][1..] == [];
  }

  /** The example with a reply whose message has no `content` fails. */
  lemma ExampleWithoutContentFails(text: string, labels: seq<string>,
                                   send: Json -> Result<Json, string>, parse: string -> Option<Json>)
    requires send(BuildBody(text, labels)) == Ok(Obj([("choices", Arr([Obj([("message", Obj([]))])]))]))
    requires parse("{}") == Some(Obj([]))
    ensures Classify(text, labels, send, parse) == Err(Shape(MissingField("label")))
  {
    NoContentIsAnError(text, labels, send, parse);
  }
}
