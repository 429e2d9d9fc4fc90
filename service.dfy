/**
 * `QuotesService`: the two stores it works on and its operations, each
 * changing the stores step by step as the service does and proved against the
 * functions of Voting, Editing and Querying.
 */
module Quotes {
  import opened Wrappers
  import opened Model
  import opened Voting
  import opened Editing
  import opened Querying

  class QuotesService {
    /** The quotes collection, by document id. */
    var quotes: map<QuoteId, Quote>
    /** The votes collection, in insertion order; the store itself enforces no uniqueness. */
    var votes: seq<Vote>
    /** The next id the database hands out; ids are never reused. */
    var nextId: QuoteId

    /** Every stored quote has an id the database has already handed out. */
    ghost predicate Valid()
      reads this
    {
      forall q :: q in quotes ==> q < nextId
    }

    /** The vote operations' invariant over the current stores. */
    ghost predicate Consistent()
      reads this
    {
      Model.Consistent(quotes, votes)
    }

    constructor ()
      ensures Valid() && Consistent()
      ensures quotes == map[] && votes == []
    {
      quotes := map[];
      votes := [];
      nextId := 0;
    }

    /** `create({text, author})`: validates, then saves the new quote under a fresh id. */
    method Create(text: Option<string>, author: Option<string>) returns (r: Result<(QuoteId, Quote), Error>)
      requires Valid()
      modifies this
      ensures Valid()
      ensures old(Consistent()) ==> Consistent()
      ensures votes == old(votes)
      ensures NewQuote(text, author).Failure? ==>
        r == Failure(NewQuote(text, author).error) && quotes == old(quotes)
      ensures NewQuote(text, author).Success? ==>
        && r.Success? && r.value.0 !in old(quotes)
        && r.value.1 == NewQuote(text, author).value
        && quotes == old(quotes)[r.value.0 := r.value.1]
    {
      var checked := NewQuote(text, author);
      if checked.Failure? {
        return Failure(checked.error);
      }
      var id := nextId;
      assert id !in quotes;
      nextId := nextId + 1;
      quotes := quotes[id := checked.value];
      assert Valid();
      r := Success((id, checked.value));
      if old(Consistent()) {
        AddQuoteKeepsConsistency(old(quotes), votes, id, checked.value);
      }
    }

    /** `update(id, {text?, author?})`: rejects a blank text, then a missing quote; sets only the fields given. */
    method Update(id: QuoteId, text: Option<string>, author: Option<string>) returns (r: Result<Quote, Error>)
      requires Valid()
      modifies this
      ensures Valid() && nextId == old(nextId)
      ensures old(Consistent()) ==> Consistent()
      ensures votes == old(votes)
      ensures UpdateTextError(text).Some? ==>
        r == Failure(TextCannotBeEmpty) && quotes == old(quotes)
      ensures UpdateTextError(text).None? && id !in old(quotes) ==>
        r == Failure(QuoteNotFound) && quotes == old(quotes)
      ensures UpdateTextError(text).None? && id in old(quotes) ==>
        && r == Success(Patch(old(quotes)[id], text, author))
        && quotes == old(quotes)[id := r.value]
    {
      var rejected := UpdateTextError(text);
      if rejected.Some? {
        r := Failure(rejected.value);
      } else if id !in quotes {
        r := Failure(QuoteNotFound);
      } else {
        var prior := quotes;
        var updated := Patch(prior[id], text, author);
        quotes := prior[id := updated];
        r := Success(updated);
        if Model.Consistent(prior, votes) {
          SameCountersKeepConsistency(prior, votes, id, updated);
        }
      }
    }

    /**
     * The body shared by `upvote` and `downvote`: load the quote, look up the
     * caller's vote, then create, reject or flip it and adjust the counters.
     */
    method CastVote(quoteId: QuoteId, userId: UserId, dir: VoteType) returns (r: Result<Quote, Error>)
      requires Valid()
      modifies this
      ensures Valid() && nextId == old(nextId)
      ensures (r, Stores(quotes, votes)) == Cast(Stores(old(quotes), old(votes)), quoteId, userId, dir)
      ensures old(Consistent()) ==> Consistent()
      ensures old(NonNegativeCounters(quotes)) ==> NonNegativeCounters(quotes)
    {
      ghost var before := Stores(quotes, votes);
      if quoteId !in quotes {
        return Failure(QuoteNotFound);
      }
      var quote := quotes[quoteId];
      var existing := FindVote(votes, userId, quoteId);
      if existing.Some? {
        var i := existing.value;
        if votes[i].voteType == dir {
          return Failure(AlreadyVoted(dir));
        }
        votes := votes[i := votes[i].(voteType := dir)];
        var prior := dir.Opposite();
        quote := quote.WithCounter(prior, Max(0, quote.Counter(prior) - 1));
        quote := quote.WithCounter(dir, quote.Counter(dir) + 1);
        quotes := quotes[quoteId := quote];
        r := Success(quote);
      } else {
        votes := votes + [Vote(userId, quoteId, dir)];
        quote := quote.WithCounter(dir, quote.Counter(dir) + 1);
        quotes := quotes[quoteId := quote];
        r := Success(quote);
      }
      assert (r, Stores(quotes, votes)) == Cast(before, quoteId, userId, dir);
      assert quotes.Keys == before.quotes.Keys;
      if Model.Consistent(before.quotes, before.votes) {
        CastPreservesConsistency(before, quoteId, userId, dir);
      }
      if NonNegativeCounters(before.quotes) {
        CastKeepsCountersNonNegative(before, quoteId, userId, dir);
      }
    }

    /** `upvote(quoteId, userId)`. */
    method Upvote(quoteId: QuoteId, userId: UserId) returns (r: Result<Quote, Error>)
      requires Valid()
      modifies this
      ensures Valid() && nextId == old(nextId)
      ensures (r, Stores(quotes, votes)) == Cast(Stores(old(quotes), old(votes)), quoteId, userId, VoteType.Upvote)
      ensures old(Consistent()) ==> Consistent()
      ensures old(NonNegativeCounters(quotes)) ==> NonNegativeCounters(quotes)
    {
      r := CastVote(quoteId, userId, VoteType.Upvote);
    }

    /** `downvote(quoteId, userId)`. */
    method Downvote(quoteId: QuoteId, userId: UserId) returns (r: Result<Quote, Error>)
      requires Valid()
      modifies this
      ensures Valid() && nextId == old(nextId)
      ensures (r, Stores(quotes, votes)) == Cast(Stores(old(quotes), old(votes)), quoteId, userId, VoteType.Downvote)
      ensures old(Consistent()) ==> Consistent()
      ensures old(NonNegativeCounters(quotes)) ==> NonNegativeCounters(quotes)
    {
      r := CastVote(quoteId, userId, VoteType.Downvote);
    }

    /** `delete(id)`: fails when no quote was deleted; otherwise removes the quote and every vote on it. */
    method Delete(id: QuoteId) returns (r: Result<bool, Error>)
      requires Valid()
      modifies this
      ensures Valid() && nextId == old(nextId)
      ensures old(Consistent()) ==> Consistent()
      ensures id !in old(quotes) ==>
        r == Failure(NotFoundOrAlreadyDeleted) && quotes == old(quotes) && votes == old(votes)
      ensures id in old(quotes) ==>
        && r == Success(true)
        && quotes == old(quotes) - {id}
        && votes == WithoutQuote(old(votes), id)
    {
      if id !in quotes {
        return Failure(NotFoundOrAlreadyDeleted);
      }
      quotes := quotes - {id};
      votes := WithoutQuote(votes, id);
      r := Success(true);
      if old(Consistent()) {
        forall q | q in quotes
          ensures quotes[q].upvotes == Count(votes, q, VoteType.Upvote)
          ensures quotes[q].downvotes == Count(votes, q, VoteType.Downvote)
        {
          CountWithoutQuote(old(votes), id, q, VoteType.Upvote);
          CountWithoutQuote(old(votes), id, q, VoteType.Downvote);
        }
        WithoutQuoteKeepsOnePerPair(old(votes), id);
        forall i | 0 <= i < |votes|
          ensures votes[i].quoteId in quotes
        {
          assert votes[i] in old(votes);
        }
      }
    }

    /**
     * `findAll(query)` without the page of documents: the page, limit, skip,
     * sort and filter it computes, the number of quotes the filter selects and
     * the resulting page count. `None` when the skip is negative: the database
     * rejects that find and `findAll` throws before it counts anything.
     */
    method FindAll(query: ListQuery, textMatches: (string, string) -> bool) returns (r: Option<Listing>)
      ensures r.None? <==> Skip(PageOf(query), LimitOf(query)) < 0
      ensures r.Some? ==> r.value.page == PageOf(query) && r.value.limit == LimitOf(query)
      ensures r.Some? ==> r.value.skip == (r.value.page - 1) * r.value.limit >= 0
      ensures r.Some? ==> r.value.sort == SortOf(query) && r.value.filter == FilterOf(query)
      ensures r.Some? ==> r.value.total == |set q | q in quotes && Matches(r.value.filter, quotes[q], textMatches)|
      ensures r.Some? && r.value.limit > 0 ==>
        (r.value.totalPages - 1) * r.value.limit < r.value.total <= r.value.totalPages * r.value.limit
      ensures r.Some? && r.value.limit < 0 ==>
        r.value.totalPages * r.value.limit <= r.value.total < (r.value.totalPages - 1) * r.value.limit
    {
      if Skip(PageOf(query), LimitOf(query)) < 0 {
        return None;
      }
      var filter := FilterOf(query);
      var total := |set q | q in quotes && Matches(filter, quotes[q], textMatches)|;
      r := Some(ListingOf(query, total));
    }
  }
}
