/** Reading the classification out of the server's reply
    (chapters/ch04_lmstudio_api/src/main.rs:9-13, 47-50): the message content
    of the first choice, or the text `{}` when there is none, and the decoding
    of a parsed JSON value into a `ClassOut` as serde's derived `Deserialize`
    does it.
 */
module Response {

  import opened Wrappers
  import opened Json

  /** The decoded classification: the chosen label and the model's reason.
      (`label` is a Dafny keyword, hence `chosen`.) */
  datatype ClassOut = ClassOut(chosen: string, reason: string)

  /** Why a value does not decode into a `ClassOut`. */
  datatype DecodeError =
    | MissingField(field: string)      // an object without `label` or `reason`
    | DuplicateField(field: string)    // an object naming `label` or `reason` twice
    | InvalidType                      // a field, an element or the value itself of the wrong JSON type
    | InvalidLength(length: nat)       // an array with fewer than two elements
    | TrailingElements                 // an array with more than two elements

  /** The fallback text used when the reply has no string content. */
  const EmptyObjectText: string := "{}"

  /** `resp["choices"][0]["message"]["content"]` with serde_json's total indexing. */
  function ContentField(resp: Json): Json
  {
    Get(Get(At(Get(resp, "choices"), 0), "message"), "content")
  }

  /** The message content of the first choice when it is a string, and `{}`
      otherwise. Never fails. */
  function ExtractContent(resp: Json): (content: string)
  {
    match ContentField(resp)
    case Str(s) => s
    case _ => EmptyObjectText
  }

  /** How many members of `ms` are named `key`. */
  function Count(ms: seq<(string, Json)>, key: string): (n: nat)
    ensures n == 0 <==> !HasKey(ms, key)
  {
    if |ms| == 0 then 0
    else
      assert HasKey(ms, key) <==> ms[0].0 == key || HasKey(ms[1..], key) by {
        if HasKey(ms, key) && ms[0].0 != key {
          var i :| 0 <= i < |ms| && ms[i].0 == key;
          assert ms[1..][i - 1].0 == key;
        }
        if HasKey(ms[1..], key) {
          var i :| 0 <= i < |ms[1..]| && ms[1..][i].0 == key;
          assert ms[i + 1].0 == key;
        }
      }
      (if ms[0].0 == key then 1 else 0) + Count(ms[1..], key)
  }

  /** Every `label` and `reason` member of `ms` holds a string. */
  predicate FieldsAreStrings(ms: seq<(string, Json)>)
  {
    forall i :: 0 <= i < |ms| && (ms[i].0 == "label" || ms[i].0 == "reason") ==> ms[i].1.Str?
  }

  /** The field value decoded so far, or the one member of `ms` that supplies it. */
  predicate Supplies(ms: seq<(string, Json)>, key: string, seen: Option<string>, value: string)
  {
    if seen.Some? then value == seen.value else (key, Str(value)) in ms
  }

  /** serde's derived struct visitor over the members of an object, in order:
      `seenLabel` and `seenReason` hold the fields decoded so far. A known field
      seen a second time is an error, a known field that is not a string is an
      error, every other member is skipped, and at the end a field never seen
      is missing (`label` is checked first). */
  function DecodeMembers(ms: seq<(string, Json)>, seenLabel: Option<string>, seenReason: Option<string>)
    : (r: Result<ClassOut, DecodeError>)
    ensures r.Ok? <==>
      && FieldsAreStrings(ms)
      && Count(ms, "label") == (if seenLabel.Some? then 0 else 1)
      && Count(ms, "reason") == (if seenReason.Some? then 0 else 1)
    ensures r.Ok? ==> Supplies(ms, "label", seenLabel, r.value.chosen)
    ensures r.Ok? ==> Supplies(ms, "reason", seenReason, r.value.reason)
  {
    if |ms| == 0 then
      if seenLabel.None? then Err(MissingField("label"))
      else if seenReason.None? then Err(MissingField("reason"))
      else Ok(ClassOut(seenLabel.value, seenReason.value))
    else
      var (key, value) := ms[0];
      assert forall i :: 0 <= i < |ms[1..]| ==> ms[1..][i] == ms[i + 1];
      if key == "label" then
        if seenLabel.Some? then Err(DuplicateField("label"))
        else if !value.Str? then Err(InvalidType)
        else DecodeMembers(ms[1..], Some(value.s), seenReason)
      else if key == "reason" then
        if seenReason.Some? then Err(DuplicateField("reason"))
        else if !value.Str? then Err(InvalidType)
        else DecodeMembers(ms[1..], seenLabel, Some(value.s))
      else
        DecodeMembers(ms[1..], seenLabel, seenReason)
  }

  /** serde's derived visitor over the sequence form `[label, reason]`: two
      strings in order, and nothing after them. */
  function DecodeElements(items: seq<Json>): Result<ClassOut, DecodeError>
  {
    if |items| == 0 then Err(InvalidLength(0))
    else if !items[0].Str? then Err(InvalidType)
    else if |items| == 1 then Err(InvalidLength(1))
    else if !items[1].Str? then Err(InvalidType)
    else if |items| > 2 then Err(TrailingElements)
    else Ok(ClassOut(items[0].s, items[1].s))
  }

  /** `serde_json::from_str::<ClassOut>` once the text has been read as JSON.
      An object decodes exactly when it names `label` once and `reason` once,
      both as strings, whatever other members it has; the result holds those
      two strings. An array decodes exactly when it holds two strings. */
  function DecodeClassOut(v: Json): (r: Result<ClassOut, DecodeError>)
    ensures v.Obj? ==>
      (r.Ok? <==> FieldsAreStrings(v.members) && Count(v.members, "label") == 1 && Count(v.members, "reason") == 1)
    ensures v.Obj? && r.Ok? ==>
      ("label", Str(r.value.chosen)) in v.members && ("reason", Str(r.value.reason)) in v.members
    ensures v.Arr? ==> (r.Ok? <==> |v.items| == 2 && v.items[0].Str? && v.items[1].Str?)
    ensures v.Arr? && r.Ok? ==> v.items == [Str(r.value.chosen), Str(r.value.reason)]
    ensures !v.Obj? && !v.Arr? ==> r == Err(InvalidType)
  {
    match v
    case Obj(ms) => DecodeMembers(ms, None, None)
    case Arr(items) => DecodeElements(items)
    case _ => Err(InvalidType)
  }

  // ---------------------------------------------------------------------
  // Properties

  /** A reply of the usual shape, with a string content in the first
      choice's message, yields that string, whatever else the reply holds. */
  lemma ExtractFound(ms: seq<(string, Json)>, choices: seq<Json>, cm: seq<(string, Json)>,
                     mm: seq<(string, Json)>, s: string)
    requires DistinctKeys(ms) && DistinctKeys(cm) && DistinctKeys(mm)
    requires ("choices", Arr(choices)) in ms
    requires |choices| >= 1 && choices[0] == Obj(cm)
    requires ("message", Obj(mm)) in cm
    requires ("content", Str(s)) in mm
    ensures ExtractContent(Obj(ms)) == s
  {
    var i :| 0 <= i < |ms| && ms[i] == ("choices", Arr(choices));
    GetDistinct(ms, i);
    var j :| 0 <= j < |cm| && cm[j] == ("message", Obj(mm));
    GetDistinct(cm, j);
    var k :| 0 <= k < |mm| && mm[k] == ("content", Str(s));
    GetDistinct(mm, k);
  }

  /** Extraction falls back to `{}` at every step that finds nothing: a reply
      that is not an object or has no `choices` array, an empty `choices`, a
      first choice without an object `message`, and a message without a
      string `content`. */
  lemma ExtractFallsBack(resp: Json)
    ensures !resp.Obj? ==> ExtractContent(resp) == "{}"
    ensures !Get(resp, "choices").Arr? ==> ExtractContent(resp) == "{}"
    ensures Get(resp, "choices") == Arr([]) ==> ExtractContent(resp) == "{}"
    ensures !Get(At(Get(resp, "choices"), 0), "message").Obj? ==> ExtractContent(resp) == "{}"
    ensures (Get(At(Get(resp, "choices"), 0), "message").Obj? &&
             !HasKey(Get(At(Get(resp, "choices"), 0), "message").members, "content"))
            ==> ExtractContent(resp) == "{}"
    ensures !ContentField(resp).Str? ==> ExtractContent(resp) == "{}"
  {
  }

  /** Conversely, any extracted text other than `{}` was found in the reply:
      it is the string `content` member of the object `message` member of the
      first element of the reply's `choices` array. */
  lemma ExtractedContentIsFound(resp: Json)
    requires ExtractContent(resp) != "{}"
    ensures resp.Obj? && ("choices", Get(resp, "choices")) in resp.members
    ensures Get(resp, "choices").Arr? && |Get(resp, "choices").items| >= 1
    ensures Get(resp, "choices").items[0].Obj?
    ensures ("message", Get(Get(resp, "choices").items[0], "message")) in Get(resp, "choices").items[0].members
    ensures Get(Get(resp, "choices").items[0], "message").Obj?
    ensures ("content", Str(ExtractContent(resp))) in Get(Get(resp, "choices").items[0], "message").members
  {
  }

  /** The fallback content does not decode: the empty object misses `label`. */
  lemma EmptyObjectFails()
    ensures DecodeClassOut(Obj([])) == Err(MissingField("label"))
  {
  }

  /** An object without a `label` member, or without a `reason` member, never
      decodes. */
  lemma MissingFieldFails(ms: seq<(string, Json)>)
    ensures !HasKey(ms, "label") ==> DecodeClassOut(Obj(ms)).Err?
    ensures !HasKey(ms, "reason") ==> DecodeClassOut(Obj(ms)).Err?
  {
  }

  /** Members other than `label` and `reason` are skipped wherever they
      stand: inserting one changes neither the result nor the error. */
  lemma {:induction false} IgnoresOtherMembers(ms1: seq<(string, Json)>, ms2: seq<(string, Json)>,
                                              key: string, value: Json,
                                              seenLabel: Option<string>, seenReason: Option<string>)
    requires key != "label" && key != "reason"
    ensures DecodeMembers(ms1 + [(key, value)] + ms2, seenLabel, seenReason)
         == DecodeMembers(ms1 + ms2, seenLabel, seenReason)
    decreases |ms1|
  {
    var long := ms1 + [(key, value)] + ms2;
    if |ms1| == 0 {
      assert long[1..] == ms1 + ms2;
    } else {
      assert long[0] == ms1[0] && (ms1 + ms2)[0] == ms1[0];
      assert long[1..] == ms1[1..] + [(key, value)] + ms2;
      assert (ms1 + ms2)[1..] == ms1[1..] + ms2;
      var (k, v) := ms1[0];
      if k == "label" && seenLabel.None? && v.Str? {
        IgnoresOtherMembers(ms1[1..], ms2, key, value, Some(v.s), seenReason);
      } else if k == "reason" && seenReason.None? && v.Str? {
        IgnoresOtherMembers(ms1[1..], ms2, key, value, seenLabel, Some(v.s));
      } else if k != "label" && k != "reason" {
        IgnoresOtherMembers(ms1[1..], ms2, key, value, seenLabel, seenReason);
      }
    }
  }

  /** In an object whose member names are distinct, a successful decode
      returns exactly the strings that indexing finds under `label` and
      `reason`. */
  lemma DecodeAgreesWithIndexing(ms: seq<(string, Json)>)
    requires DistinctKeys(ms)
    requires DecodeClassOut(Obj(ms)).Ok?
    ensures Get(Obj(ms), "label") == Str(DecodeClassOut(Obj(ms)).value.chosen)
    ensures Get(Obj(ms), "reason") == Str(DecodeClassOut(Obj(ms)).value.reason)
  {
    var out := DecodeClassOut(Obj(ms)).value;
    var i :| 0 <= i < |ms| && ms[i] == ("label", Str(out.chosen));
    GetDistinct(ms, i);
    var j :| 0 <= j < |ms| && ms[j] == ("reason", Str(out.reason));
    GetDistinct(ms, j);
  }

  /** An object that names `label` a second time, after a first `label`
      string, is rejected as a duplicate, provided nothing before the second
      `label` fails first: no earlier `label`, every earlier `reason` a string,
      and `reason` at most once so far. */
  lemma DuplicateLabelFails(ms1: seq<(string, Json)>, l1: string, ms2: seq<(string, Json)>,
                            l2: string, ms3: seq<(string, Json)>)
    requires !HasKey(ms1 + ms2, "label")
    requires FieldsAreStrings(ms1 + ms2)
    requires Count(ms1 + ms2, "reason") <= 1
    ensures DecodeClassOut(Obj(ms1 + [("label", Str(l1))] + ms2 + [("label", Str(l2))] + ms3))
         == Err(DuplicateField("label"))
  {
    DuplicateLabelBefore(ms1, l1, ms2, l2, ms3, None);
  }

  /** Walking `ms` one step: the tail keeps the prefix facts. */
  lemma TailFacts(ms: seq<(string, Json)>)
    requires |ms| > 0
    ensures Count(ms, "label") == (if ms[0].0 == "label" then 1 else 0) + Count(ms[1..], "label")
    ensures Count(ms, "reason") == (if ms[0].0 == "reason" then 1 else 0) + Count(ms[1..], "reason")
    ensures FieldsAreStrings(ms) ==> FieldsAreStrings(ms[1..])
    ensures FieldsAreStrings(ms) && (ms[0].0 == "label" || ms[0].0 == "reason") ==> ms[0].1.Str?
  {
    assert forall i :: 0 <= i < |ms[1..]| ==> ms[1..][i] == ms[i + 1];
  }

  /** The part of `DuplicateLabelFails` before the first `label`. */
  lemma {:induction false} DuplicateLabelBefore(ms1: seq<(string, Json)>, l1: string, ms2: seq<(string, Json)>,
                                               l2: string, ms3: seq<(string, Json)>, seenReason: Option<string>)
    requires Count(ms1 + ms2, "label") == 0
    requires FieldsAreStrings(ms1 + ms2)
    requires Count(ms1 + ms2, "reason") + (if seenReason.Some? then 1 else 0) <= 1
    ensures DecodeMembers(ms1 + [("label", Str(l1))] + ms2 + [("label", Str(l2))] + ms3, None, seenReason)
         == Err(DuplicateField("label"))
    decreases |ms1|
  {
    var all := ms1 + [("label", Str(l1))] + ms2 + [("label", Str(l2))] + ms3;
    if |ms1| == 0 {
      assert all[0] == ("label", Str(l1));
      assert all[1..] == ms2 + [("label", Str(l2))] + ms3;
      assert ms1 + ms2 == ms2;
      DuplicateLabelAfter(ms2, l1, l2, ms3, seenReason);
    } else {
      var pre := ms1 + ms2;
      assert pre[0] == ms1[0] && all[0] == ms1[0];
      assert pre[1..] == ms1[1..] + ms2;
      assert all[1..] == ms1[1..] + [("label", Str(l1))] + ms2 + [("label", Str(l2))] + ms3;
      TailFacts(pre);
      if ms1[0].0 == "reason" {
        DuplicateLabelBefore(ms1[1..], l1, ms2, l2, ms3, Some(ms1[0].1.s));
      } else {
        DuplicateLabelBefore(ms1[1..], l1, ms2, l2, ms3, seenReason);
      }
    }
  }

  /** The part of `DuplicateLabelFails` between the two `label` members. */
  lemma {:induction false} DuplicateLabelAfter(ms2: seq<(string, Json)>, l1: string, l2: string,
                                              ms3: seq<(string, Json)>, seenReason: Option<string>)
    requires Count(ms2, "label") == 0
    requires FieldsAreStrings(ms2)
    requires Count(ms2, "reason") + (if seenReason.Some? then 1 else 0) <= 1
    ensures DecodeMembers(ms2 + [("label", Str(l2))] + ms3, Some(l1), seenReason)
         == Err(DuplicateField("label"))
    decreases |ms2|
  {
    var all := ms2 + [("label", Str(l2))] + ms3;
    if |ms2| == 0 {
      assert all[0] == ("label", Str(l2));
    } else {
      assert all[0] == ms2[0];
      assert all[1..] == ms2[1..] + [("label", Str(l2))] + ms3;
      TailFacts(ms2);
      if ms2[0].0 == "reason" {
        DuplicateLabelAfter(ms2[1..], l1, l2, ms3, Some(ms2[0].1.s));
      } else {
        DuplicateLabelAfter(ms2[1..], l1, l2, ms3, seenReason);
      }
    }
  }
}
