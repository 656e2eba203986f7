/**
 * The zod object schemas of the core, as data: each field is a required or
 * optional string with length bounds and possibly a format, or an optional
 * list of such strings with a bound on its length. `Accepts` is what
 * `schema.parse` lets through; the schemas of `src/api/lib/validators.ts` are
 * defined here, those of the login and register routes beside their handlers.
 */
module Validators {
  import opened Wrappers
  import opened JsonData

  datatype Format = AnyText | EmailAddress | WebUrl

  /**
   * zod's `email()` and `url()` checks. Their rules belong to zod, so they
   * are supplied from outside; `AnyText` never consults them.
   */
  type FormatCheck = (Format, string) -> bool

  datatype StringRule = StringRule(minLength: nat, maxLength: Option<nat>, format: Format)

  datatype FieldRule =
    | Required(rule: StringRule)                          // z.string()...
    | Optional(rule: StringRule)                          // z.string()....optional()
    | OptionalStringList(item: StringRule, maxItems: nat) // z.array(z.string()...).optional().refine(length <= maxItems)

  type ObjectSchema = seq<(string, FieldRule)>

  predicate StringOk(rule: StringRule, s: string, check: FormatCheck) {
    && rule.minLength <= |s|
    && (rule.maxLength.None? || |s| <= rule.maxLength.value)
    && (rule.format == AnyText || check(rule.format, s))
  }

  predicate ValueOk(rule: StringRule, v: Json, check: FormatCheck) {
    v.JString? && StringOk(rule, v.s, check)
  }

  /** `v` is the member as parsed: `None` is `undefined`, which only an optional field accepts (`null` is not `undefined`). */
  predicate FieldOk(rule: FieldRule, v: Option<Json>, check: FormatCheck) {
    match rule
    case Required(r) => v.Some? && ValueOk(r, v.value, check)
    case Optional(r) => v.None? || ValueOk(r, v.value, check)
    case OptionalStringList(r, n) =>
      || v.None?
      || (&& v.value.JArray?
          && |v.value.items| <= n
          && forall i :: 0 <= i < |v.value.items| ==> ValueOk(r, v.value.items[i], check))
  }

  /** `schema.parse(body)` succeeds: the body is an object and every listed member passes its rule; other members are ignored. */
  predicate Accepts(schema: ObjectSchema, body: Json, check: FormatCheck) {
    body.JObject? && forall i :: 0 <= i < |schema| ==> FieldOk(schema[i].1, Member(body, schema[i].0), check)
  }

  /** Only `undefined` stands in for an optional field: `null` is refused, and so is a value of another type. */
  lemma OptionalMeansUndefined(rule: StringRule, check: FormatCheck)
    ensures FieldOk(Optional(rule), None, check)
    ensures !FieldOk(Optional(rule), Some(JNull), check)
    ensures !FieldOk(Optional(rule), Some(JNumber(0)), check)
  {
  }

  /** Members the schema does not list are ignored: two objects that agree on the listed members are judged alike. */
  lemma AcceptsIgnoresUnlisted(schema: ObjectSchema, a: Json, b: Json, check: FormatCheck)
    requires a.JObject? && b.JObject?
    requires forall i :: 0 <= i < |schema| ==> Member(a, schema[i].0) == Member(b, schema[i].0)
    ensures Accepts(schema, a, check) <==> Accepts(schema, b, check)
  {
  }

  /** The string `body[name]` holds, if it holds one. */
  function TextAt(body: Json, name: string): Option<string> {
    match Member(body, name)
    case Some(JString(s)) => Some(s)
    case _ => None
  }

  predicate TextWithin(body: Json, name: string, lo: nat, hi: nat) {
    TextAt(body, name).Some? && lo <= |TextAt(body, name).value| <= hi
  }

  /** `ideaSchema`. */
  const IdeaSchema: ObjectSchema := [
    ("title", Required(StringRule(1, Some(100), AnyText))),
    ("content", Required(StringRule(1, None, AnyText))),
    ("tags", OptionalStringList(StringRule(1, Some(30), AnyText), 5))
  ]

  /** `userProfileSchema`. */
  const UserProfileSchema: ObjectSchema := [
    ("displayName", Required(StringRule(1, Some(50), AnyText))),
    ("bio", Optional(StringRule(0, Some(300), AnyText))),
    ("website", Optional(StringRule(0, None, WebUrl)))
  ]

  predicate TagsOk(body: Json) {
    var tags := Member(body, "tags");
    || tags.None?
    || (&& tags.value.JArray?
        && |tags.value.items| <= 5
        && forall i :: 0 <= i < |tags.value.items| ==>
             tags.value.items[i].JString? && 1 <= |tags.value.items[i].s| <= 30)
  }

  /**
   * An idea is accepted exactly when it is an object whose title is a string
   * of 1 to 100 characters, whose content is a non-empty string, and whose
   * tags are absent or a list of at most five strings of 1 to 30 characters.
   */
  lemma IdeaSchemaMeaning(body: Json, check: FormatCheck)
    ensures Accepts(IdeaSchema, body, check) <==>
      && body.JObject?
      && TextWithin(body, "title", 1, 100)
      && TextAt(body, "content").Some? && |TextAt(body, "content").value| >= 1
      && TagsOk(body)
  {
    if Accepts(IdeaSchema, body, check) {
      assert FieldOk(IdeaSchema[0].1, Member(body, IdeaSchema[0].0), check);
      assert FieldOk(IdeaSchema[1].1, Member(body, IdeaSchema[1].0), check);
      assert FieldOk(IdeaSchema[2].1, Member(body, IdeaSchema[2].0), check);
    }
    if body.JObject? && TextWithin(body, "title", 1, 100)
      && TextAt(body, "content").Some? && |TextAt(body, "content").value| >= 1 && TagsOk(body)
    {
      forall i | 0 <= i < |IdeaSchema|
        ensures FieldOk(IdeaSchema[i].1, Member(body, IdeaSchema[i].0), check)
      {
        assert i == 0 || i == 1 || i == 2;
      }
    }
  }

  /**
   * A profile is accepted exactly when it is an object whose displayName is a
   * string of 1 to 50 characters, whose bio is absent or a string of at most
   * 300 characters, and whose website is absent or a string zod takes for a URL.
   */
  lemma UserProfileSchemaMeaning(body: Json, check: FormatCheck)
    ensures Accepts(UserProfileSchema, body, check) <==>
      && body.JObject?
      && TextWithin(body, "displayName", 1, 50)
      && (Member(body, "bio").None? || TextWithin(body, "bio", 0, 300))
      && (Member(body, "website").None? ||
          (TextAt(body, "website").Some? && check(WebUrl, TextAt(body, "website").value)))
  {
    if Accepts(UserProfileSchema, body, check) {
      assert FieldOk(UserProfileSchema[0].1, Member(body, UserProfileSchema[0].0), check);
      assert FieldOk(UserProfileSchema[1].1, Member(body, UserProfileSchema[1].0), check);
      assert FieldOk(UserProfileSchema[2].1, Member(body, UserProfileSchema[2].0), check);
    }
    if && body.JObject?
       && TextWithin(body, "displayName", 1, 50)
       && (Member(body, "bio").None? || TextWithin(body, "bio", 0, 300))
       && (Member(body, "website").None? ||
           (TextAt(body, "website").Some? && check(WebUrl, TextAt(body, "website").value)))
    {
      forall i | 0 <= i < |UserProfileSchema|
        ensures FieldOk(UserProfileSchema[i].1, Member(body, UserProfileSchema[i].0), check)
      {
        assert i == 0 || i == 1 || i == 2;
      }
    }
  }

  /** A sixth tag is refused even when every tag is well formed. */
  lemma SixTagsRejected(title: string, content: string, tags: seq<string>, check: FormatCheck)
    requires |tags| == 6
    ensures !Accepts(IdeaSchema, JObject(map["title" := JString(title), "content" := JString(content),
                                             "tags" := JArray(seq(6, i requires 0 <= i < 6 => JString(tags[i])))]), check)
  {
    var body := JObject(map["title" := JString(title), "content" := JString(content),
                            "tags" := JArray(seq(6, i requires 0 <= i < 6 => JString(tags[i])))]);
    IdeaSchemaMeaning(body, check);
    assert Member(body, "tags").value.items == seq(6, i requires 0 <= i < 6 => JString(tags[i]));
  }
}
