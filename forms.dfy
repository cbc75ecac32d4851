/**
  What `PostForm.is_valid()` and `CommentForm.is_valid()` decide. Both are
  model forms: each text field becomes a form text field that strips
  surrounding whitespace, requires a value, enforces the model's
  `max_length`, refuses NUL characters, and then runs the model field's
  validators (`validate_not_empty`). The post form's `group` is a choice
  among the existing groups, or blank.
*/
module Forms {
  import opened Wrappers
  import opened Seqs
  import opened Validators
  import opened Models

  /** Why a form was refused. */
  datatype FieldError =
    | Required
    | TooLong(limit: nat)
    | NullCharacter
    | InvalidChoice
    | Rejected(error: ValidationError)

  /** Submitted post form: the raw text and the chosen group's key, `None` for the blank choice. */
  datatype PostFormData = PostFormData(text: string, group: Option<GroupId>)

  /** Submitted comment form. */
  datatype CommentFormData = CommentFormData(text: string)

  /** Cleaned post form fields. */
  datatype PostFields = PostFields(text: string, group: Option<GroupId>)

  /** The characters Python's `str.strip()` removes. */
  predicate IsSpace(c: char) {
    || ('\U{9}' <= c <= '\U{D}')
    || ('\U{1C}' <= c <= '\U{20}')
    || c == '\U{85}' || c == '\U{A0}' || c == '\U{1680}'
    || ('\U{2000}' <= c <= '\U{200A}')
    || c == '\U{2028}' || c == '\U{2029}' || c == '\U{202F}' || c == '\U{205F}' || c == '\U{3000}'
  }

  /** How many characters `lstrip()` removes. */
  function LeadingSpaces(s: string): (n: nat)
    ensures n <= |s|
    ensures forall k :: 0 <= k < n ==> IsSpace(s[k])
    ensures n < |s| ==> !IsSpace(s[n])
  {
    if s != [] && IsSpace(s[0]) then 1 + LeadingSpaces(s[1..]) else 0
  }

  /** How many characters `rstrip()` removes. */
  function TrailingSpaces(s: string): (n: nat)
    ensures n <= |s|
    ensures forall k :: |s| - n <= k < |s| ==> IsSpace(s[k])
    ensures n < |s| ==> !IsSpace(s[|s| - n - 1])
  {
    if s != [] && IsSpace(s[|s| - 1]) then 1 + TrailingSpaces(s[..|s| - 1]) else 0
  }

  /**
    `str.strip()`: `s` without its leading and trailing whitespace. The
    result is empty exactly when `s` is all whitespace, and otherwise
    neither starts nor ends with whitespace.
  */
  function Strip(s: string): (r: string)
    ensures r == "" <==> forall k :: 0 <= k < |s| ==> IsSpace(s[k])
    ensures r != "" ==> r == s[LeadingSpaces(s)..|s| - TrailingSpaces(s)]
    ensures r != "" ==> !IsSpace(r[0]) && !IsSpace(r[|r| - 1])
  {
    var i := LeadingSpaces(s);
    if i == |s| then ""
    else
      var t := TrailingSpaces(s);
      assert |s| - t > i by {
        assert !IsSpace(s[i]);
      }
      s[i..|s| - t]
  }

  /**
    The text field of either form: stripped, then required, at most
    `limit` characters, free of NUL, and accepted by `validate_not_empty`.
  */
  function CleanText(raw: string, limit: nat): (r: Result<string, FieldError>)
    ensures r.Success? <==> Strip(raw) != "" && |Strip(raw)| <= limit && '\U{0}' !in Strip(raw)
    ensures r.Success? ==> r.value == Strip(raw) && TextFits(r.value, limit)
    ensures r == Failure(Required) <==> Strip(raw) == ""
  {
    var v := Strip(raw);
    if v == "" then Failure(Required)
    else if |v| > limit then Failure(TooLong(limit))
    else if '\U{0}' in v then Failure(NullCharacter)
    else match ValidateNotEmpty(v)
      case Raised(e) => Failure(Rejected(e))
      case Passed => Success(v)
  }

  /** `PostForm(data).is_valid()` and its cleaned fields. */
  function CleanPostForm(data: PostFormData, groups: seq<Group>): (r: Result<PostFields, FieldError>)
    ensures r.Success? <==>
      CleanText(data.text, PostTextMax).Success? && (data.group.Some? ==> HasKey(groups, GroupPk, data.group.value))
    ensures r.Success? ==> r.value.text == Strip(data.text) && TextFits(r.value.text, PostTextMax)
    ensures r.Success? ==> r.value.group == data.group
  {
    match CleanText(data.text, PostTextMax)
    case Failure(e) => Failure(e)
    case Success(text) =>
      if data.group.Some? && Find(groups, GroupPk, data.group.value).None? then Failure(InvalidChoice)
      else Success(PostFields(text, data.group))
  }

  /** `CommentForm(data).is_valid()` and its cleaned text. */
  function CleanCommentForm(data: CommentFormData): (r: Result<string, FieldError>)
    ensures r.Success? <==> CleanText(data.text, CommentTextMax).Success?
    ensures r.Success? ==> r.value == Strip(data.text) && TextFits(r.value, CommentTextMax)
  {
    CleanText(data.text, CommentTextMax)
  }

  /**
    The validator alone lets a whitespace-only text through; the form
    refuses it, because the form field strips before anything else runs.
  */
  lemma BlankTextPassesValidatorButNotForm(raw: string)
    requires raw != "" && forall k :: 0 <= k < |raw| ==> IsSpace(raw[k])
    ensures ValidateNotEmpty(raw) == Passed
    ensures CleanText(raw, PostTextMax) == Failure(Required)
  {
  }
}
