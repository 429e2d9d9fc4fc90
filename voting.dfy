/**
 * `upvote` and `downvote` as functions of the two stores: the three-way vote
 * state machine (first vote, repeat, flip) and the facts it keeps.
 */
module Voting {
  import opened Wrappers
  import opened Model

  /** The quotes store and the votes store. */
  datatype Stores = Stores(quotes: map<QuoteId, Quote>, votes: seq<Vote>)

  /**
   * `upvote(quoteId, userId)` (direction Upvote) and `downvote(quoteId, userId)`
   * (direction Downvote): the quote returned or the exception thrown, and the
   * stores afterwards.
   */
  function Cast(s: Stores, quoteId: QuoteId, userId: UserId, dir: VoteType): (out: (Result<Quote, Error>, Stores))
    ensures out.1.quotes.Keys == s.quotes.Keys
    ensures out.0.Failure? ==> out.1 == s
    ensures out.0.Success? ==> quoteId in out.1.quotes && out.0.value == out.1.quotes[quoteId]
    ensures out.0.Success? ==> Vote(userId, quoteId, dir) in out.1.votes
    ensures |s.votes| <= |out.1.votes| <= |s.votes| + 1
    ensures forall q :: q in s.quotes && q != quoteId ==> out.1.quotes[q] == s.quotes[q]
  {
    if quoteId !in s.quotes then (Failure(QuoteNotFound), s)
    else
      var quote := s.quotes[quoteId];
      match FindVote(s.votes, userId, quoteId)
      case Some(i) =>
        if s.votes[i].voteType == dir then (Failure(AlreadyVoted(dir)), s)
        else
          var prior := dir.Opposite();
          var lowered := quote.WithCounter(prior, Max(0, quote.Counter(prior) - 1));
          var flipped := lowered.WithCounter(dir, quote.Counter(dir) + 1);
          var rewritten := s.votes[i].(voteType := dir);
          assert rewritten == Vote(userId, quoteId, dir) && s.votes[i := rewritten][i] == rewritten;
          (Success(flipped), Stores(s.quotes[quoteId := flipped], s.votes[i := rewritten]))
      case None =>
        var raised := quote.WithCounter(dir, quote.Counter(dir) + 1);
        (Success(raised), Stores(s.quotes[quoteId := raised], s.votes + [Vote(userId, quoteId, dir)]))
  }

  /** `Math.max`. */
  function Max(a: int, b: int): (r: int)
    ensures r >= a && r >= b
    ensures r == a || r == b
  {
    if a < b then b else a
  }

  /**
   * A vote is rejected exactly when the quote is missing or the user already
   * holds a vote of that direction on it, and a rejected vote changes nothing.
   */
  lemma RejectedExactlyWhen(s: Stores, quoteId: QuoteId, userId: UserId, dir: VoteType)
    requires AtMostOnePerPair(s.votes)
    ensures var (r, s') := Cast(s, quoteId, userId, dir);
      && (r.Failure? <==> quoteId !in s.quotes || Vote(userId, quoteId, dir) in s.votes)
      && (r.Failure? ==> s' == s)
      && (quoteId !in s.quotes ==> r == Failure(QuoteNotFound))
      && (quoteId in s.quotes && Vote(userId, quoteId, dir) in s.votes ==> r == Failure(AlreadyVoted(dir)))
  {
  }

  /**
   * A first vote on an existing quote succeeds, adds exactly one vote record of
   * that direction, raises that counter by one and leaves the other counter,
   * the text, the author and every other quote as they were.
   */
  lemma FirstVote(s: Stores, quoteId: QuoteId, userId: UserId, dir: VoteType)
    requires quoteId in s.quotes && FindVote(s.votes, userId, quoteId).None?
    ensures var (r, s') := Cast(s, quoteId, userId, dir);
      && r.Success? && quoteId in s'.quotes && r.value == s'.quotes[quoteId]
      && r.value.Counter(dir) == s.quotes[quoteId].Counter(dir) + 1
      && r.value.Counter(dir.Opposite()) == s.quotes[quoteId].Counter(dir.Opposite())
      && r.value.text == s.quotes[quoteId].text && r.value.author == s.quotes[quoteId].author
      && s'.quotes.Keys == s.quotes.Keys
      && (forall q :: q in s.quotes && q != quoteId ==> s'.quotes[q] == s.quotes[q])
      && s'.votes == s.votes + [Vote(userId, quoteId, dir)]
      && Count(s'.votes, quoteId, dir) == Count(s.votes, quoteId, dir) + 1
      && Count(s'.votes, quoteId, dir.Opposite()) == Count(s.votes, quoteId, dir.Opposite())
  {
    var v := Vote(userId, quoteId, dir);
    CountAppend(s.votes, v, quoteId, dir);
    CountAppend(s.votes, v, quoteId, dir.Opposite());
    assert (s.votes + [v])[|s.votes|] == v;
  }

  /**
   * Under the consistency invariant the floor `Math.max(0, c - 1)` never clips:
   * the counter of a direction some vote on the quote has is at least one.
   */
  lemma FloorNeverClips(s: Stores, quoteId: QuoteId, i: nat)
    requires Consistent(s.quotes, s.votes)
    requires i < |s.votes| && s.votes[i].quoteId == quoteId
    ensures quoteId in s.quotes
    ensures var c := s.quotes[quoteId].Counter(s.votes[i].voteType); c >= 1 && Max(0, c - 1) == c - 1
  {
    CountPositive(s.votes, i, quoteId, s.votes[i].voteType);
  }

  /**
   * Flipping a vote rewrites that one record's direction and moves exactly one
   * unit from the old counter to the new; under the consistency invariant the
   * old counter drops by exactly one.
   */
  lemma FlipVote(s: Stores, quoteId: QuoteId, userId: UserId, dir: VoteType)
    requires quoteId in s.quotes
    requires FindVote(s.votes, userId, quoteId).Some?
    requires s.votes[FindVote(s.votes, userId, quoteId).value].voteType != dir
    ensures var (r, s') := Cast(s, quoteId, userId, dir);
      var i := FindVote(s.votes, userId, quoteId).value;
      var before := s.quotes[quoteId];
      && r.Success? && quoteId in s'.quotes && r.value == s'.quotes[quoteId]
      && s'.quotes.Keys == s.quotes.Keys
      && |s'.votes| == |s.votes|
      && s'.votes[i] == Vote(userId, quoteId, dir)
      && (forall j :: 0 <= j < |s.votes| && j != i ==> s'.votes[j] == s.votes[j])
      && r.value.Counter(dir) == before.Counter(dir) + 1
      && r.value.Counter(dir.Opposite()) == Max(0, before.Counter(dir.Opposite()) - 1)
      && r.value.text == before.text && r.value.author == before.author
      && (forall q :: q in s.quotes && q != quoteId ==> s'.quotes[q] == s.quotes[q])
      && Count(s'.votes, quoteId, dir) == Count(s.votes, quoteId, dir) + 1
      && Count(s'.votes, quoteId, dir.Opposite()) == Count(s.votes, quoteId, dir.Opposite()) - 1
      && (Consistent(s.quotes, s.votes) ==> r.value.Counter(dir.Opposite()) == before.Counter(dir.Opposite()) - 1)
  {
    var i := FindVote(s.votes, userId, quoteId).value;
    var v := s.votes[i].(voteType := dir);
    CountUpdate(s.votes, i, v, quoteId, dir);
    CountUpdate(s.votes, i, v, quoteId, dir.Opposite());
    if Consistent(s.quotes, s.votes) {
      FloorNeverClips(s, quoteId, i);
    }
  }

  /**
   * Whatever the stores, drifted ones included, a vote never takes a
   * non-negative counter below zero: the only decrement is floored at 0.
   */
  lemma CastKeepsCountersNonNegative(s: Stores, quoteId: QuoteId, userId: UserId, dir: VoteType)
    requires NonNegativeCounters(s.quotes)
    ensures NonNegativeCounters(Cast(s, quoteId, userId, dir).1.quotes)
  {
  }

  /**
   * Run one at a time, every vote keeps the counters equal to the vote-record
   * counts, at most one vote per (user, quote) and every vote on an existing
   * quote; in particular no counter ever becomes negative.
   */
  lemma CastPreservesConsistency(s: Stores, quoteId: QuoteId, userId: UserId, dir: VoteType)
    requires Consistent(s.quotes, s.votes)
    ensures var s' := Cast(s, quoteId, userId, dir).1;
      && Consistent(s'.quotes, s'.votes)
      && s'.quotes.Keys == s.quotes.Keys
      && (forall q :: q in s'.quotes ==> s'.quotes[q].upvotes >= 0 && s'.quotes[q].downvotes >= 0)
  {
    if quoteId in s.quotes {
      match FindVote(s.votes, userId, quoteId)
      case None =>
        FirstVoteKeepsConsistency(s, quoteId, userId, dir);
      case Some(i) =>
        if s.votes[i].voteType != dir {
          FlipKeepsConsistency(s, quoteId, userId, dir, i);
        }
    }
  }

  /** The first-vote branch of CastPreservesConsistency. */
  lemma FirstVoteKeepsConsistency(s: Stores, quoteId: QuoteId, userId: UserId, dir: VoteType)
    requires Consistent(s.quotes, s.votes)
    requires quoteId in s.quotes && FindVote(s.votes, userId, quoteId).None?
    ensures var s' := Cast(s, quoteId, userId, dir).1; Consistent(s'.quotes, s'.votes)
  {
    var s' := Cast(s, quoteId, userId, dir).1;
    var v := Vote(userId, quoteId, dir);
    assert s'.votes == s.votes + [v];
    forall q | q in s'.quotes
      ensures s'.quotes[q].upvotes == Count(s'.votes, q, Upvote)
      ensures s'.quotes[q].downvotes == Count(s'.votes, q, Downvote)
    {
      CountAppend(s.votes, v, q, Upvote);
      CountAppend(s.votes, v, q, Downvote);
    }
    assert s'.votes[|s.votes|] == v;
  }

  /** The flip branch of CastPreservesConsistency. */
  lemma FlipKeepsConsistency(s: Stores, quoteId: QuoteId, userId: UserId, dir: VoteType, i: nat)
    requires Consistent(s.quotes, s.votes)
    requires quoteId in s.quotes && FindVote(s.votes, userId, quoteId) == Some(i)
    requires s.votes[i].voteType != dir
    ensures var s' := Cast(s, quoteId, userId, dir).1; Consistent(s'.quotes, s'.votes)
  {
    var s' := Cast(s, quoteId, userId, dir).1;
    var v := s.votes[i].(voteType := dir);
    assert s'.votes == s.votes[i := v];
    FloorNeverClips(s, quoteId, i);
    forall q | q in s'.quotes
      ensures s'.quotes[q].upvotes == Count(s'.votes, q, Upvote)
      ensures s'.quotes[q].downvotes == Count(s'.votes, q, Downvote)
    {
      CountUpdate(s.votes, i, v, q, Upvote);
      CountUpdate(s.votes, i, v, q, Downvote);
    }
  }
}
