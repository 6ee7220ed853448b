/** The strict JSON Schema the classifier sends as its structured-output
    constraint (chapters/ch04_lmstudio_api/src/main.rs:16-24), and the meaning
    of that schema: a validator for the JSON Schema keywords it uses.
 */
module Schema {

  import opened Wrappers
  import opened Json

  /** The schema for one classification: an object with exactly the two
      string members `label` and `reason`, both required, where `label` is
      restricted to the caller's labels. */
  function BuildSchema(labels: seq<string>): (schema: Json)
  {
    Obj([
      ("type", Str("object")),
      ("additionalProperties", Bool(false)),
      ("properties", Obj([("label", LabelProperty(labels)), ("reason", ReasonProperty)])),
      ("required", StrArray(["label", "reason"]))
    ])
  }

  /** The schema of the `label` member: a string from the caller's labels. */
  function LabelProperty(labels: seq<string>): Json
  {
    Obj([("type", Str("string")), ("enum", StrArray(labels))])
  }

  /** The schema of the `reason` member: any string. */
  const ReasonProperty: Json := Obj([("type", Str("string"))])

  /** The labels a schema's `properties.label.enum` admits, read back through
      serde_json indexing; `None` when that path is not an array of strings. */
  function EnumLabels(schema: Json): Option<seq<string>>
  {
    AsStrings(Get(Get(Get(schema, "properties"), "label"), "enum"))
  }

  // ---------------------------------------------------------------------
  // What a schema admits

  /** The instance has the JSON type a `type` keyword names. */
  predicate HasType(v: Json, name: string)
  {
    match name
    case "object" => v.Obj?
    case "array" => v.Arr?
    case "string" => v.Str?
    case "boolean" => v.Bool?
    case "null" => v.Null?
    case "number" => v.Num?
    case "integer" => v.Num? && (v.exponent >= 0 || v.mantissa % Pow10(-v.exponent) == 0)
    case _ => false
  }

  function Pow10(n: nat): (p: nat)
    ensures p >= 1
  {
    if n == 0 then 1 else 10 * Pow10(n - 1)
  }

  /** The `type` keyword, when present as a string, holds of `v`. */
  predicate TypeHolds(v: Json, t: Json)
  {
    !t.Str? || HasType(v, t.s)
  }

  /** The `enum` keyword, when present as an array, lists `v`. */
  predicate EnumHolds(v: Json, e: Json)
  {
    !e.Arr? || v in e.items
  }

  /** The `required` keyword, on an object instance, names only members it has. */
  predicate RequiredHolds(v: Json, req: Json)
  {
    !(v.Obj? && req.Arr?) ||
    forall i :: 0 <= i < |req.items| && req.items[i].Str? ==> HasKey(v.members, req.items[i].s)
  }

  /** Whether `inst` is valid against `schema`, for the keywords `type`,
      `enum`, `required`, `properties` and `additionalProperties`, with
      the boolean schemas `true` and `false`. Other keywords, and schemas that
      are neither objects nor booleans, do not constrain the instance.
      Object members are checked one by one, so a member name written twice
      is checked twice. */
  predicate Validates(inst: Json, schema: Json)
    decreases schema
  {
    match schema
    case Bool(b) => b
    case Obj(kws) =>
      var props := Get(schema, "properties");
      var additional := Get(schema, "additionalProperties");
      && TypeHolds(inst, Get(schema, "type"))
      && EnumHolds(inst, Get(schema, "enum"))
      && RequiredHolds(inst, Get(schema, "required"))
      && (inst.Obj? ==>
            forall i :: 0 <= i < |inst.members| ==>
              MemberValidates(inst.members[i], schema, props, additional))
    case _ => true
  }

  /** One member of an object instance against the `properties` and
      `additionalProperties` keywords of `schema`: a member named in
      `properties` is checked against that property's schema, any other
      member against `additionalProperties` when it is present. */
  predicate MemberValidates(m: (string, Json), schema: Json, props: Json, additional: Json)
    requires schema.Obj?
    requires props == Get(schema, "properties")
    requires additional == Get(schema, "additionalProperties")
    decreases schema, 0
  {
    if props.Obj? && HasKey(props.members, m.0) then
      assert ("properties", props) in schema.members;
      assert (m.0, Get(props, m.0)) in props.members;
      Validates(m.1, Get(props, m.0))
    else if HasKey(schema.members, "additionalProperties") then
      assert ("additionalProperties", additional) in schema.members;
      Validates(m.1, additional)
    else
      true
  }

  // ---------------------------------------------------------------------
  // Properties of the classification schema

  /** A member the classification schema admits: `label` holding one of the
      labels, or `reason` holding any string. */
  predicate AllowedMember(m: (string, Json), labels: seq<string>)
  {
    || (m.0 == "label" && m.1.Str? && m.1.s in labels)
    || (m.0 == "reason" && m.1.Str?)
  }

  /** An object with a `label` and a `reason` member and no member the
      schema does not allow. */
  predicate IsClassification(v: Json, labels: seq<string>)
  {
    && v.Obj?
    && HasKey(v.members, "label")
    && HasKey(v.members, "reason")
    && forall i :: 0 <= i < |v.members| ==> AllowedMember(v.members[i], labels)
  }

  /** The member lookups on the top level of the schema. */
  lemma TopLookups(labels: seq<string>)
    ensures Get(BuildSchema(labels), "type") == Str("object")
    ensures Get(BuildSchema(labels), "additionalProperties") == Bool(false)
    ensures Get(BuildSchema(labels), "properties") == Obj([("label", LabelProperty(labels)), ("reason", ReasonProperty)])
    ensures Get(BuildSchema(labels), "required") == StrArray(["label", "reason"])
    ensures Get(BuildSchema(labels), "enum") == Null
  {
    var ms := BuildSchema(labels).members;
    assert DistinctKeys(ms);
    GetDistinct(ms, 0);
    GetDistinct(ms, 1);
    GetDistinct(ms, 2);
    GetDistinct(ms, 3);
    assert !HasKey(ms, "enum");
  }

  /** The member lookups on the two property schemas. */
  lemma PropertyLookups(labels: seq<string>)
    ensures Get(Obj([("label", LabelProperty(labels)), ("reason", ReasonProperty)]), "label") == LabelProperty(labels)
    ensures Get(Obj([("label", LabelProperty(labels)), ("reason", ReasonProperty)]), "reason") == ReasonProperty
    ensures Get(LabelProperty(labels), "type") == Str("string")
    ensures Get(LabelProperty(labels), "enum") == StrArray(labels)
    ensures Get(LabelProperty(labels), "required") == Null
    ensures Get(ReasonProperty, "type") == Str("string")
    ensures Get(ReasonProperty, "enum") == Null
    ensures Get(ReasonProperty, "required") == Null
  {
    var ps := [("label", LabelProperty(labels)), ("reason", ReasonProperty)];
    assert DistinctKeys(ps);
    GetDistinct(ps, 0);
    GetDistinct(ps, 1);
    var ls := LabelProperty(labels).members;
    assert DistinctKeys(ls);
    GetDistinct(ls, 0);
    GetDistinct(ls, 1);
    assert !HasKey(ls, "required");
    var rs := ReasonProperty.members;
    GetDistinct(rs, 0);
    assert !HasKey(rs, "enum");
    assert !HasKey(rs, "required");
  }

  /** The enumeration reproduces the labels exactly: same texts, same order,
      duplicates kept, nothing normalised. */
  lemma EnumIsLabels(labels: seq<string>)
    ensures EnumLabels(BuildSchema(labels)) == Some(labels)
  {
    var e := StrArray(labels);
    TopLookups(labels);
    PropertyLookups(labels);
    assert forall i :: 0 <= i < |e.items| ==> e.items[i].Str?;
    assert seq(|e.items|, i requires 0 <= i < |e.items| => e.items[i].s) == labels;
  }

  /** Everything but the enumeration is fixed: the schema is an object type,
      forbids additional members, requires `label` and `reason`, and types
      both as strings, whatever the labels. */
  lemma FixedShape(labels: seq<string>)
    ensures Get(BuildSchema(labels), "type") == Str("object")
    ensures Get(BuildSchema(labels), "additionalProperties") == Bool(false)
    ensures AsStrings(Get(BuildSchema(labels), "required")) == Some(["label", "reason"])
    ensures Get(Get(Get(BuildSchema(labels), "properties"), "label"), "type") == Str("string")
    ensures Get(Get(Get(BuildSchema(labels), "properties"), "reason"), "type") == Str("string")
    ensures Get(BuildSchema(labels), "properties").Obj?
    ensures |Get(BuildSchema(labels), "properties").members| == 2
    ensures Get(Get(BuildSchema(labels), "properties"), "reason") == ReasonProperty
  {
    var r := StrArray(["label", "reason"]);
    TopLookups(labels);
    PropertyLookups(labels);
    assert seq(|r.items|, i requires 0 <= i < |r.items| => r.items[i].s) == ["label", "reason"];
  }

  /** The schema depends on the labels and on nothing else, and different
      label sequences give different schemas. */
  lemma SchemaDeterminedByLabels(labels1: seq<string>, labels2: seq<string>)
    ensures BuildSchema(labels1) == BuildSchema(labels2) <==> labels1 == labels2
  {
    if BuildSchema(labels1) == BuildSchema(labels2) {
      EnumIsLabels(labels1);
      EnumIsLabels(labels2);
    }
  }

  lemma InStrArray(x: Json, labels: seq<string>)
    ensures x in StrArray(labels).items <==> x.Str? && x.s in labels
  {
    var items := StrArray(labels).items;
    if x in items {
      var i :| 0 <= i < |items| && items[i] == x;
      assert x.s == labels[i];
    }
    if x.Str? && x.s in labels {
      var i :| 0 <= i < |labels| && labels[i] == x.s;
      assert items[i] == x;
    }
  }

  lemma LabelPropertyMeaning(x: Json, labels: seq<string>)
    ensures Validates(x, LabelProperty(labels)) <==> x.Str? && x.s in labels
  {
    TopLookups(labels);
    PropertyLookups(labels);
    InStrArray(x, labels);
  }

  lemma ReasonPropertyMeaning(x: Json)
    ensures Validates(x, ReasonProperty) <==> x.Str?
  {
    PropertyLookups([]);
  }

  lemma MemberMeaning(m: (string, Json), labels: seq<string>)
    ensures MemberValidates(m, BuildSchema(labels), Get(BuildSchema(labels), "properties"),
                            Get(BuildSchema(labels), "additionalProperties"))
        <==> AllowedMember(m, labels)
  {
    var sch := BuildSchema(labels);
    var props := Get(sch, "properties");
    TopLookups(labels);
    PropertyLookups(labels);
    assert HasKey(sch.members, "additionalProperties") by {
      assert sch.members[1].0 == "additionalProperties";
    }
    if m.0 == "label" {
      assert props.members[0].0 == "label";
      assert Get(props, "label") == LabelProperty(labels);
      LabelPropertyMeaning(m.1, labels);
    } else if m.0 == "reason" {
      assert props.members[1].0 == "reason";
      assert Get(props, "reason") == ReasonProperty;
      ReasonPropertyMeaning(m.1);
    } else {
      assert !HasKey(props.members, m.0);
    }
  }

  /** A value is valid against the schema built from `labels` exactly when it
      is an object with `label` and `reason` members, every `label` member is
      a string among the labels, every `reason` member is a string, and there
      is no other member. */
  lemma ValidatesIffClassification(v: Json, labels: seq<string>)
    ensures Validates(v, BuildSchema(labels)) <==> IsClassification(v, labels)
  {
    var sch := BuildSchema(labels);
    var props := Get(sch, "properties");
    var additional := Get(sch, "additionalProperties");
    var req := StrArray(["label", "reason"]);
    TopLookups(labels);
    PropertyLookups(labels);
    assert req.items == [Str("label"), Str("reason")];
    if v.Obj? {
      forall i | 0 <= i < |v.members|
        ensures MemberValidates(v.members[i], sch, props, additional) <==> AllowedMember(v.members[i], labels)
      {
        MemberMeaning(v.members[i], labels);
      }
      assert RequiredHolds(v, req) <==> HasKey(v.members, "label") && HasKey(v.members, "reason") by {
        if HasKey(v.members, "label") && HasKey(v.members, "reason") {
          forall i | 0 <= i < |req.items| && req.items[i].Str?
            ensures HasKey(v.members, req.items[i].s)
          {
            assert i == 0 || i == 1;
          }
        }
        if RequiredHolds(v, req) {
          assert req.items[0].s == "label";
          assert req.items[1].s == "reason";
        }
      }
    }
  }
}
