/**
 * The values a post-creation form holds and the `blogData` object both
 * forms build from them: title and content as typed, the tags string
 * turned into a list of tags.
 */
module Post {
  import TagNormalizer

  /** The three form fields. */
  datatype Field = TitleField | ContentField | TagsField

  /** The form's values, all strings; the tags are still one comma-separated string. */
  datatype Draft = Draft(title: string, content: string, tags: string)

  /** The form's default values. */
  const EmptyDraft := Draft("", "", "")

  /** The draft with one field replaced, as an input's change handler does. */
  function WithField(d: Draft, field: Field, value: string): (r: Draft)
    ensures field == TitleField ==> r == Draft(value, d.content, d.tags)
    ensures field == ContentField ==> r == Draft(d.title, value, d.tags)
    ensures field == TagsField ==> r == Draft(d.title, d.content, value)
  {
    match field
    case TitleField => d.(title := value)
    case ContentField => d.(content := value)
    case TagsField => d.(tags := value)
  }

  /** The body of a create request: `{title, content, tags}`. */
  datatype BlogData = BlogData(title: string, content: string, tags: seq<string>)

  /** Title and content pass through unchanged; only the tags are
      transformed, into well-formed tags normalized from the tags string. */
  function ToBlogData(d: Draft): (b: BlogData)
    ensures b.title == d.title && b.content == d.content
    ensures b.tags == TagNormalizer.Normalize(d.tags)
    ensures TagNormalizer.AllTags(b.tags)
  {
    BlogData(d.title, d.content, TagNormalizer.Normalize(d.tags))
  }

  /** Typing a body's tags back into the form, comma-separated, rebuilds
      exactly that body. */
  lemma ToBlogDataRoundTrip(b: BlogData)
    requires TagNormalizer.AllTags(b.tags)
    ensures ToBlogData(Draft(b.title, b.content, TagNormalizer.Join(b.tags))) == b
  {
    TagNormalizer.NormalizeJoin(b.tags);
  }
}
