/**
 * The validation and defaulting `create` and `update` apply before they
 * touch the quotes store.
 */
module Editing {
  import opened Wrappers
  import opened Text
  import opened Model

  /** The author `create` stores when none is given. */
  const DefaultAuthor: string := "Unknown"

  /**
   * `create({text, author})`: rejects a missing or whitespace-only text;
   * otherwise the new quote keeps the text as given, has the author given or
   * "Unknown" when none (or an empty one) is given, and starts with no votes.
   */
  function NewQuote(text: Option<string>, author: Option<string>): (r: Result<Quote, Error>)
    ensures r.Failure? <==> text.None? || IsBlank(text.value)
    ensures r.Failure? ==> r.error == TextRequired
    ensures r.Success? ==> r.value.text == text.value && r.value.upvotes == 0 && r.value.downvotes == 0
    ensures r.Success? && author.Some? && author.value != [] ==> r.value.author == author.value
    ensures r.Success? && (author.None? || author.value == []) ==> r.value.author == DefaultAuthor
  {
    if text.None? || text.value == [] then Failure(TextRequired)
    else
      TrimEmptyIffBlank(text.value);
      if Trim(text.value) == [] then Failure(TextRequired)
      else
        var name := if author.Some? && author.value != [] then author.value else DefaultAuthor;
        Success(Quote(text.value, name, 0, 0))
  }

  /** The check `update` makes before touching the store: a text that is given must not be blank. */
  function UpdateTextError(text: Option<string>): (e: Option<Error>)
    ensures e.Some? <==> text.Some? && IsBlank(text.value)
    ensures e.Some? ==> e.value == TextCannotBeEmpty
  {
    match text
    case None => None
    case Some(t) =>
      TrimEmptyIffBlank(t);
      if Trim(t) == [] then Some(TextCannotBeEmpty) else None
  }

  /** `$set: {text?, author?}`: the given fields replaced, everything else (the counters) kept. */
  function Patch(quote: Quote, text: Option<string>, author: Option<string>): (r: Quote)
    ensures r.upvotes == quote.upvotes && r.downvotes == quote.downvotes
    ensures r.text == (if text.Some? then text.value else quote.text)
    ensures r.author == (if author.Some? then author.value else quote.author)
  {
    var withText := if text.Some? then quote.(text := text.value) else quote;
    if author.Some? then withText.(author := author.value) else withText
  }
}
