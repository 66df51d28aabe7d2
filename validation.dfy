/**
 * The client form's submit-time schema: a title of 3 to 200 characters,
 * content of 10 to 5000 characters, and any tags string. Like the schema
 * library it follows, it either accepts the values unchanged or lists the
 * issues found, field by field, in field order.
 */
module Validation {
  import opened Wrappers
  import opened Post

  /** A violated rule and the message shown under its field. */
  datatype Issue = Issue(field: Field, message: string)

  const TitleMin: nat := 3
  const TitleMax: nat := 200
  const ContentMin: nat := 10
  const ContentMax: nat := 5000

  const TitleTooShort := "Title must be at least 3 characters"
  const TitleTooLong := "Title must be less than 200 characters"
  const ContentTooShort := "Content must be at least 10 characters"
  const ContentTooLong := "Content must be less than 5000 characters"

  /** A string field with a minimum and a maximum length, each with its own
      message: both checks run, and at most one of them can fail. */
  function LengthIssues(field: Field, value: string, min: nat, max: nat,
                        tooShort: string, tooLong: string): (r: seq<Issue>)
    requires min <= max
    ensures r == [] <==> min <= |value| <= max
    ensures |value| < min ==> r == [Issue(field, tooShort)]
    ensures |value| > max ==> r == [Issue(field, tooLong)]
  {
    (if |value| < min then [Issue(field, tooShort)] else []) +
    (if |value| > max then [Issue(field, tooLong)] else [])
  }

  function TitleIssues(title: string): (r: seq<Issue>)
    ensures r == [] <==> TitleMin <= |title| <= TitleMax
    ensures forall k :: 0 <= k < |r| ==> r[k].field == TitleField
  {
    LengthIssues(TitleField, title, TitleMin, TitleMax, TitleTooShort, TitleTooLong)
  }

  function ContentIssues(content: string): (r: seq<Issue>)
    ensures r == [] <==> ContentMin <= |content| <= ContentMax
    ensures forall k :: 0 <= k < |r| ==> r[k].field == ContentField
  {
    LengthIssues(ContentField, content, ContentMin, ContentMax, ContentTooShort, ContentTooLong)
  }

  /** The schema: accepted exactly when both lengths are in range (a title of
      exactly 200 characters is accepted), accepted values come back
      unchanged, and no issue is ever about the tags. */
  function Validate(d: Draft): (r: Result<Draft, seq<Issue>>)
    ensures r.Ok? <==> TitleMin <= |d.title| <= TitleMax && ContentMin <= |d.content| <= ContentMax
    ensures r.Ok? ==> r.value == d
    ensures r.Err? ==> r.error != []
    ensures r.Err? ==> forall k :: 0 <= k < |r.error| ==> r.error[k].field != TagsField
    ensures r.Err? ==> (|d.title| < TitleMin ==> Issue(TitleField, TitleTooShort) in r.error)
    ensures r.Err? ==> (|d.title| > TitleMax ==> Issue(TitleField, TitleTooLong) in r.error)
    ensures r.Err? ==> (|d.content| < ContentMin ==> Issue(ContentField, ContentTooShort) in r.error)
    ensures r.Err? ==> (|d.content| > ContentMax ==> Issue(ContentField, ContentTooLong) in r.error)
    ensures r.Err? ==> forall i :: i in r.error ==>
              (i.field == TitleField && !(TitleMin <= |d.title| <= TitleMax)) ||
              (i.field == ContentField && !(ContentMin <= |d.content| <= ContentMax))
  {
    var issues := TitleIssues(d.title) + ContentIssues(d.content);
    if issues == [] then Ok(d) else Err(issues)
  }

  /** The tags field imposes nothing: changing it never changes the verdict. */
  lemma TagsUnconstrained(d: Draft, tags: string)
    ensures Validate(d.(tags := tags)).Ok? == Validate(d).Ok?
  {
  }
}
