# Blog post creation: a Dafny model

This project models the write side of a server-rendered blog front end: the
two forms a signed-in user writes a new post with.

- The **tag normalizer** turns the free-text tags field into a list of tags.
  It splits the field on `,`, trims each piece as JavaScript's
  `String.prototype.trim` does, and drops the pieces left empty
  (`tag_normalizer.dfy`, module `TagNormalizer`). Whitespace is the fixed set
  of ECMAScript WhiteSpace and LineTerminator code points.
- The **draft and request body** hold the form's three string values and the
  `{title, content, tags}` object that both forms send (`post.dfy`, module
  `Post`).
- The **submission schema** is the client form's submit-time rule set: title
  3 to 200 characters, content 10 to 5000, tags free (`validation.dfy`, module
  `Validation`). A title of exactly 200 characters is accepted, even though
  its message reads "less than 200".
- The **client form controller** is a class `CreateBlogForm`
  (`client_form.dfy`, module `ClientForm`). It holds the three field values,
  the issues of the last validation, the `isSubmitting` flag and the toast.
  A press of the publish button is guarded by the button's `disabled` rule.
  Then the schema gates the create call. The call's outcome (created,
  rejected with a message, or thrown) decides the toast, and whether the
  fields are reset to `""`.
- The **server action** `createBlog` is a pure function
  (`server_form.dfy`, module `ServerForm`). It builds the outgoing POST
  request. It revalidates `"blogPosts"` only when the response is ok.

`wrappers.dfy` holds the `Option` and `Result` types.

Modelling choices:
- The create call of the client form lives in a file that is not part of
  this model. Its outcome is a parameter (`CreateOutcome`).
- The network response of the server action is a parameter too (`responseOk`).
- `DoubleSubmit` and `RejectedThenRetry` are scenario methods: short
  sequences of user actions on one form. They show what callers can
  conclude from the class's contracts alone.
- Once a submit-time validation has failed, each field's issues stay on the
  form until that field is changed or left (blurred). A change or a blur of
  one field validates that field again. That drops the field's submit-time
  issues and keeps those of the others. `canSubmit` is "no submission in
  flight and no field shows an outstanding issue". So the button stays
  disabled until every field with an issue has been edited or left.
- The server action returns nothing, and it sends nothing back on a response
  that is not ok. The model keeps this silent failure as the code has it.

## Model

| member | source | states |
|---|---|---|
| `TagNormalizer.IsSpaceCodePoints` | src/components/modules/user/createBlog/CreateBlogFormClient.tsx:56 | `IsSpace`, the set of characters `trim` strips, holds exactly when its code point is in the ECMA-262 WhiteSpace or LineTerminator set |
| `TagNormalizer.Trim` | src/components/modules/user/createBlog/CreateBlogFormClient.tsx:56 | the trimmed piece has no space character at either end and is no longer than the piece |
| `TagNormalizer.TrimSlice` | src/components/modules/user/createBlog/CreateBlogFormClient.tsx:56 | the trim is a contiguous slice of the piece; everything cut off before and after it is space |
| `TagNormalizer.TrimOfPadded` | src/components/modules/user/createBlog/CreateBlogFormClient.tsx:56 | trimming a trimmed string padded with spaces on both sides gives that string back, so trim is fully determined |
| `TagNormalizer.TrimTrimmed` | src/components/modules/user/createBlog/CreateBlogFormClient.tsx:56 | a string with no space at either end is its own trim |
| `TagNormalizer.TrimIdempotent` | src/components/modules/user/createBlog/CreateBlogFormClient.tsx:56 | trimming twice is trimming once |
| `TagNormalizer.TrimEmptyIff` | src/components/modules/user/createBlog/CreateBlogFormClient.tsx:56-57 | a piece trims to `""` (and is then filtered out) exactly when it consists of space characters |
| `TagNormalizer.TrimSubset` | src/components/modules/user/createBlog/CreateBlogFormClient.tsx:56 | trimming adds no character, so no comma appears in a trimmed piece |
| `TagNormalizer.Split` | src/components/modules/user/createBlog/CreateBlogFormClient.tsx:55 | `split(",")` yields at least one piece (`""` gives `[""]`) and no piece holds a comma |
| `TagNormalizer.JoinSplit` | src/components/modules/user/createBlog/CreateBlogFormClient.tsx:55 | joining the pieces with commas restores the input exactly |
| `TagNormalizer.SplitAppend` | src/components/modules/user/createBlog/CreateBlogFormClient.tsx:55 | a comma splits the input exactly where it stands: the pieces of `a + "," + b` are those of `a` followed by those of `b` |
| `TagNormalizer.SplitPiece` | src/components/modules/user/createBlog/CreateBlogFormClient.tsx:55 | a comma-free string splits into itself alone |
| `TagNormalizer.SplitJoin` | src/components/modules/user/createBlog/CreateBlogFormClient.tsx:55 | splitting the comma-join of a non-empty list of comma-free pieces gives the list back |
| `TagNormalizer.TrimAll` | src/components/modules/user/createBlog/CreateBlogFormClient.tsx:56 | `map(trim)` keeps the length and position: element k is the trim of piece k |
| `TagNormalizer.DropEmpty` | src/components/modules/user/createBlog/CreateBlogFormClient.tsx:57 | `filter(item !== "")` keeps no empty string and never lengthens the list |
| `TagNormalizer.DropEmptyMembers` | src/components/modules/user/createBlog/CreateBlogFormClient.tsx:57 | a string survives the filter exactly when it was in the list and is non-empty |
| `TagNormalizer.DropEmptyAppend` | src/components/modules/user/createBlog/CreateBlogFormClient.tsx:57 | the filter keeps order: filtering a concatenation concatenates the filtered parts |
| `TagNormalizer.TrimAllMembers` | src/components/modules/user/createBlog/CreateBlogFormClient.tsx:56 | a string is among the trimmed pieces exactly when some piece trims to it |
| `TagNormalizer.TrimAllAppend` | src/components/modules/user/createBlog/CreateBlogFormClient.tsx:56 | trimming a concatenation concatenates the trimmed parts |
| `TagNormalizer.TrimAllTrimmed` | src/components/modules/user/createBlog/CreateBlogFormClient.tsx:56 | `map(trim)` leaves a list of already-trimmed strings unchanged |
| `TagNormalizer.DropEmptyNonEmpty` | src/components/modules/user/createBlog/CreateBlogFormClient.tsx:57 | the filter leaves a list without empty strings unchanged |
| `TagNormalizer.Normalize` | src/components/modules/user/createBlog/CreateBlogFormClient.tsx:54-57 | every produced tag is non-empty, has no space at either end, and holds no comma |
| `TagNormalizer.NormalizeTagsTrimmed` | src/components/modules/user/createBlog/CreateBlogFormClient.tsx:54-57 | every produced tag equals its own trim |
| `TagNormalizer.NormalizeMembers` | src/components/modules/user/createBlog/CreateBlogFormClient.tsx:54-57 | a string is a produced tag exactly when it is non-empty and some comma-piece of the input trims to it |
| `TagNormalizer.SinglePiece` | src/components/modules/user/createBlog/CreateBlogFormClient.tsx:54-57 | a comma-free input gives its trim as the only tag, or no tag when it is blank |
| `TagNormalizer.NormalizeAppend` | src/components/modules/user/createBlog/CreateBlogFormClient.tsx:54-57 | order is preserved: the tags of `a + "," + b` are those of `a` followed by those of `b`; with SinglePiece this determines the normalizer on every input |
| `TagNormalizer.NormalizeJoin` | src/components/modules/user/createBlog/CreateBlogFormClient.tsx:54-57 | comma-join is the inverse of the normalizer on lists of well-formed tags |
| `TagNormalizer.NormalizeIdempotent` | src/components/modules/user/createBlog/CreateBlogFormClient.tsx:54-57 | normalizing the comma-join of a normalized result returns that same result |
| `TagNormalizer.NormalizeEmptyIff` | src/components/modules/user/createBlog/CreateBlogFormClient.tsx:54-57 | no tag comes out exactly when the input holds only commas and spaces, the empty input included (both directions) |
| `TagNormalizer.SeparatorsAppend` | src/components/modules/user/createBlog/CreateBlogFormClient.tsx:55 | an input joined at a comma holds only commas and spaces exactly when both of its parts do |
| `TagNormalizer.BlankAppend` | src/components/modules/user/createBlog/CreateBlogFormClient.tsx:56 | two all-space strings concatenate to an all-space string |
| `TagNormalizer.LeadingSpace` | src/components/modules/user/createBlog/CreateBlogFormClient.tsx:56 | the counted prefix fits in the string and the character after it is not a space |
| `TagNormalizer.TrailingSpace` | src/components/modules/user/createBlog/CreateBlogFormClient.tsx:56 | the counted suffix fits in the string and the character before it is not a space |
| `TagNormalizer.LeadingSpaceOfPadded` | src/components/modules/user/createBlog/CreateBlogFormClient.tsx:56 | spaces before a non-space start are exactly the leading run |
| `TagNormalizer.TrailingSpaceOfPadded` | src/components/modules/user/createBlog/CreateBlogFormClient.tsx:56 | spaces after a non-space end are exactly the trailing run |
| `TagNormalizer.LeadingSpaceOfBlank` | src/components/modules/user/createBlog/CreateBlogFormClient.tsx:56 | in an all-space string the leading run is the whole string |
| `TagNormalizer.LeadingSpaceIsSpace` | src/components/modules/user/createBlog/CreateBlogFormClient.tsx:56 | every character of the counted prefix is a space |
| `TagNormalizer.TrailingSpaceIsSpace` | src/components/modules/user/createBlog/CreateBlogFormClient.tsx:56 | every character of the counted suffix is a space |
| `TagNormalizer.BlankTrimsEmpty` | src/components/modules/user/createBlog/CreateBlogFormClient.tsx:56-57 | an all-space piece trims to `""` |
| `TagNormalizer.EmptyTrimIsBlank` | src/components/modules/user/createBlog/CreateBlogFormClient.tsx:56-57 | a piece that trims to `""` consists of space characters only |
| `Post.WithField` | src/components/modules/user/createBlog/CreateBlogFormClient.tsx:114-157 | each of the three change handlers (lines 114, 136 and 157) replaces its own field and keeps the other two |
| `Post.ToBlogData` | src/components/modules/user/createBlog/CreateBlogFormClient.tsx:51-58 | title and content are passed on unchanged; only the tags are transformed, into the normalized, well-formed list |
| `Post.ToBlogDataRoundTrip` | src/components/modules/user/createBlog/CreateBlogFormClient.tsx:51-58 | typing a body's tags back comma-separated, with the same title and content, rebuilds exactly that body |
| `Validation.LengthIssues` | src/components/modules/user/createBlog/CreateBlogFormClient.tsx:27-34 | a min/max string rule finds no issue exactly when min ≤ length ≤ max, and otherwise exactly the one too-short or too-long issue |
| `Validation.TitleIssues` | src/components/modules/user/createBlog/CreateBlogFormClient.tsx:27-30 | the title is accepted exactly when 3 ≤ length ≤ 200, and its issues are about the title |
| `Validation.ContentIssues` | src/components/modules/user/createBlog/CreateBlogFormClient.tsx:31-34 | the content is accepted exactly when 10 ≤ length ≤ 5000, and its issues are about the content |
| `Validation.Validate` | src/components/modules/user/createBlog/CreateBlogFormClient.tsx:26-36 | accepted exactly when both lengths are in range, and then the values come back unchanged; a rejection lists at least one issue, gives the rule's own message for each field out of range, and every issue it lists is about a field out of range, so tags and in-range fields are never blamed |
| `Validation.TagsUnconstrained` | src/components/modules/user/createBlog/CreateBlogFormClient.tsx:35 | the tags string never changes the verdict |
| `ClientForm.SettledNotice` | src/components/modules/user/createBlog/CreateBlogFormClient.tsx:63-71 | success toast exactly on success; on a rejection the toast is the remote message verbatim; on an exception it is the fixed generic text |
| `ClientForm.CreateBlogForm.constructor` | src/components/modules/user/createBlog/CreateBlogFormClient.tsx:39-44 | a new form holds `""` in all three fields, no issues, no submission and no toast |
| `ClientForm.CreateBlogForm.Change` | src/components/modules/user/createBlog/CreateBlogFormClient.tsx:114-157 | the changed field takes the typed value; the others keep theirs; the changed field's submit-time issues are dropped and the other fields' issues are kept |
| `ClientForm.WithoutField` | src/components/modules/user/createBlog/CreateBlogFormClient.tsx:114-157 | what a change to a field leaves of the issues: no issue about that field, and never more issues than before |
| `ClientForm.WithoutFieldMembers` | src/components/modules/user/createBlog/CreateBlogFormClient.tsx:114-157 | an issue survives a change exactly when it was outstanding and concerns another field (both directions) |
| `ClientForm.WithoutFieldUntouched` | src/components/modules/user/createBlog/CreateBlogFormClient.tsx:114-157 | changing a field that shows no issue leaves all issues as they are |
| `ClientForm.CreateBlogForm.CanSubmit` | src/components/modules/user/createBlog/CreateBlogFormClient.tsx:172 | `canSubmit` holds exactly when no submission is in flight and no field shows an outstanding issue |
| `ClientForm.CreateBlogForm.Blur` | src/components/modules/user/createBlog/CreateBlogFormClient.tsx:113-156 | leaving a field (the `onBlur` handlers at lines 113, 135 and 156) drops that field's submit-time issues, keeps the other fields' issues, and changes nothing else |
| `ClientForm.CreateBlogForm.SubmitDisabled` | src/components/modules/user/createBlog/CreateBlogFormClient.tsx:178 | the button is disabled exactly when a submission is in flight or some field shows an issue |
| `ClientForm.CreateBlogForm.BeginSubmit` | src/components/modules/user/createBlog/CreateBlogFormClient.tsx:45-61 | while the button is disabled (no `canSubmit`, or `isSubmitting`) nothing changes and nothing is sent; otherwise rejected values record their issues and send nothing, while accepted values enter the submitting state with the loading toast and send the normalized body; field values never change |
| `ClientForm.CreateBlogForm.FinishSubmit` | src/components/modules/user/createBlog/CreateBlogFormClient.tsx:60-72 | on success all three fields are reset to `""`; on a rejection or exception the fields and issues are kept; the toast is the settled notice; submission ends |
| `ClientForm.CreateBlogForm.Submit` | src/components/modules/user/createBlog/CreateBlogFormClient.tsx:48-73 | a request goes out exactly when the button was enabled and the values pass the schema; the fields are reset only when it went out and succeeded; rejected values record their issues and leave the button disabled, and otherwise the issues are as before |
| `ClientForm.DoubleSubmit` | src/components/modules/user/createBlog/CreateBlogFormClient.tsx:171-178 | a second press right after the first sends nothing, so at most one create request goes out |
| `ClientForm.RejectedThenRetry` | src/components/modules/user/createBlog/CreateBlogFormClient.tsx:63-66 | after an "Unauthorized" rejection the values are intact and the same request can be sent again without a reload |
| `ServerForm.BuildRequest` | src/components/modules/user/createBlog/CreateBlogFormServer.tsx:22-42 | a JSON POST to `<API_URL>/posts` with the caller's cookies; the body has title and content as submitted and the normalized tags; built for every input, with no length rule |
| `ServerForm.CreateBlog` | src/components/modules/user/createBlog/CreateBlogFormServer.tsx:20-46 | the request does not depend on the response; `revalidateTag("blogPosts", "max")` is called exactly when the response is ok; otherwise nothing else happens |
| `ServerForm.SameBodyAsClient` | src/components/modules/user/createBlog/CreateBlogFormServer.tsx:25-32 | the server action sends the same body the client form builds from the same values, tags normalized identically |
| `ServerForm.RejectedValuesAreSent` | src/components/modules/user/createBlog/CreateBlogFormServer.tsx:22-42 | a one-letter title and content, which the inputs' `required` attributes let through and the client schema rejects, are still sent by the server action, with an empty tags field giving no tags |

## Left out

- Rendering: JSX, styling, icons, cards, the loading spinner and the button label. `src/components/modules/user/history/HistoryTable.tsx` is pure rendering and is not part of this model.
- The read side: listing posts and fetching a post by id. These are calls to a remote API, and their code is not part of this model.
- `createBlogPost` (from `@/actions/blog.action`) is not part of this model. Its three possible endings are the `CreateOutcome` parameter. A result with an `error` but no `message` is not distinguished: the model always shows the message it is given.
- Server I/O: `fetch`, `cookies()`, `env.API_URL`, header serialization and `JSON.stringify`. The request is a record, the cookie store an opaque string, the API URL a parameter, and the response only its `ok` flag.
- `ServerForm.CreateBlog`: the form data is taken as three strings. A submission missing a field would read it as `null`, and a missing tags field would make `split` throw. This form cannot submit that, so the model does not cover it.
- The `required` attributes of the server form's title and content inputs (CreateBlogFormServer.tsx lines 73 and 91). The browser refuses to submit that form with either one empty. The action itself does not check, and the model covers only what the action does.
- ServerForm.CreateBlog: a `fetch` or `cookies()` call that fails without a response is not modelled. The action then throws to its caller and revalidates nothing, and `responseOk` cannot express that ending.
- `revalidateTag`'s cache behaviour. Only the decision to call it, and its arguments, is modelled.
- Async behaviour and concurrency. One submission is modelled at a time, as two steps: `BeginSubmit`, then `FinishSubmit`. The toast's id and the replacement of the loading toast are reduced to one `notice` value.
- Form library internals: touched and blur state, `isValidating`, and submission counters. Only the observable rules are modelled. The schema gates the create call, a reset restores the defaults, a change or a blur drops the submit-time issues of that field, and the button's `disabled` rule gates a press. Pressing Enter in a field is covered by the same rule, because a form whose default button is disabled does not submit implicitly.
- ClientForm.CreateBlogForm.CanSubmit: leaves out the library's `isValidating` flag and its untouched-before-the-first-attempt case. Validation here is synchronous, so `isValidating` is never observed set. Before the first attempt no issue exists, so that case agrees with the rule as modelled.
- Validation.LengthIssues: counts Unicode code points, while JavaScript's `length` counts UTF-16 code units. A string containing characters outside the Basic Multilingual Plane can therefore be measured shorter here than in the browser.
- Validation.TitleIssues: measures the title in code points, as LengthIssues does.
- Validation.ContentIssues: measures the content in code points, as LengthIssues does.
- Validation.Validate: measures both fields in code points, as LengthIssues does.
- TagNormalizer.IsSpace: uses the ECMAScript whitespace set as a fixed list. It does not follow later Unicode changes to the space-separator category.
- There is no lemma about a literal input. The result for an input such as `"a, ,b,, c "` follows from `NormalizeAppend` (once per comma) and `SinglePiece` (once per piece).
- Deduplication. The code keeps duplicate tags, and so does the model.
- Error reporting in the server action. The action returns nothing and ignores a response that is not ok. The model follows the code and does not invent an error result.
