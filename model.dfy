/**
 * The records of the two stores the quotes service works on, and the facts
 * about them that the operations rely on: counting vote records, finding
 * a user's vote on a quote, removing a quote's votes.
 */
module Model {
  import opened Wrappers

  /** Database identifiers; the service never looks inside them. */
  type QuoteId = nat
  type UserId = nat

  /** A vote's `voteType`, one of 'upvote' and 'downvote'. */
  datatype VoteType = Upvote | Downvote {
    function Opposite(): (o: VoteType)
      ensures o != this
    {
      if this == Upvote then Downvote else Upvote
    }
  }

  /** A quote document: its text, author and the two cached vote counters (JavaScript numbers). */
  datatype Quote = Quote(text: string, author: string, upvotes: int, downvotes: int) {

    /** The counter that votes of type `t` feed. */
    function Counter(t: VoteType): int
    {
      if t == Upvote then upvotes else downvotes
    }

    /** This quote with the counter of type `t` set to `n` and everything else as it was. */
    function WithCounter(t: VoteType, n: int): (q: Quote)
      ensures q.Counter(t) == n && q.Counter(t.Opposite()) == Counter(t.Opposite())
      ensures q.text == text && q.author == author
    {
      if t == Upvote then this.(upvotes := n) else this.(downvotes := n)
    }
  }

  /** A vote document: who voted on which quote, and in which direction. */
  datatype Vote = Vote(userId: UserId, quoteId: QuoteId, voteType: VoteType)

  /** The query `{quoteId, userId}` that `findOne` runs against the votes store. */
  predicate IsVoteOf(v: Vote, u: UserId, q: QuoteId)
  {
    v.userId == u && v.quoteId == q
  }

  /** One when `v` is a vote of type `t` on quote `q`, zero otherwise. */
  function Tally(v: Vote, q: QuoteId, t: VoteType): nat
  {
    if v.quoteId == q && v.voteType == t then 1 else 0
  }

  /** The number of vote records of type `t` on quote `q`. */
  function Count(votes: seq<Vote>, q: QuoteId, t: VoteType): nat
  {
    if votes == [] then 0 else Tally(votes[0], q, t) + Count(votes[1..], q, t)
  }

  /**
   * `findOne({quoteId, userId})`: the position of the first vote by `u` on `q`,
   * or None when the user has not voted on the quote.
   */
  function FindVote(votes: seq<Vote>, u: UserId, q: QuoteId): (r: Option<nat>)
    ensures r.Some? ==> r.value < |votes| && IsVoteOf(votes[r.value], u, q)
    ensures r.Some? ==> forall j :: 0 <= j < r.value ==> !IsVoteOf(votes[j], u, q)
    ensures r.None? <==> forall j :: 0 <= j < |votes| ==> !IsVoteOf(votes[j], u, q)
  {
    if votes == [] then None
    else if IsVoteOf(votes[0], u, q) then Some(0)
    else match FindVote(votes[1..], u, q)
      case None => None
      case Some(i) => Some(i + 1)
  }

  /** `deleteMany({quoteId: q})`: the votes that are not on quote `q`, in their order. */
  function WithoutQuote(votes: seq<Vote>, q: QuoteId): (r: seq<Vote>)
    ensures |r| <= |votes|
    ensures forall v :: v in r <==> v in votes && v.quoteId != q
  {
    if votes == [] then []
    else (if votes[0].quoteId == q then [] else [votes[0]]) + WithoutQuote(votes[1..], q)
  }

  /** No two vote records belong to the same (user, quote) pair. */
  predicate AtMostOnePerPair(votes: seq<Vote>)
  {
    forall i, j :: 0 <= i < j < |votes| ==> !IsVoteOf(votes[j], votes[i].userId, votes[i].quoteId)
  }

  /** Every quote's counters equal the number of vote records of each type on it. */
  predicate CountersMatchVotes(quotes: map<QuoteId, Quote>, votes: seq<Vote>)
  {
    forall q :: q in quotes ==>
      quotes[q].upvotes == Count(votes, q, Upvote) && quotes[q].downvotes == Count(votes, q, Downvote)
  }

  /** No quote has a negative counter. */
  predicate NonNegativeCounters(quotes: map<QuoteId, Quote>)
  {
    forall q :: q in quotes ==> quotes[q].upvotes >= 0 && quotes[q].downvotes >= 0
  }

  /** Every vote record is on a quote that exists. */
  predicate VotesReferToQuotes(quotes: map<QuoteId, Quote>, votes: seq<Vote>)
  {
    forall i :: 0 <= i < |votes| ==> votes[i].quoteId in quotes
  }

  /** The state the vote operations keep when requests run one at a time. */
  predicate Consistent(quotes: map<QuoteId, Quote>, votes: seq<Vote>)
  {
    CountersMatchVotes(quotes, votes) && AtMostOnePerPair(votes) && VotesReferToQuotes(quotes, votes)
  }

  /** Saving a new vote adds its tally to the count and nothing else. */
  lemma {:induction false} CountAppend(votes: seq<Vote>, v: Vote, q: QuoteId, t: VoteType)
    ensures Count(votes + [v], q, t) == Count(votes, q, t) + Tally(v, q, t)
  {
    if votes == [] {
      assert [] + [v] == [v];
      assert [v][1..] == [];
    } else {
      assert (votes + [v])[1..] == votes[1..] + [v];
      CountAppend(votes[1..], v, q, t);
    }
  }

  /** Replacing one vote record swaps its tally for the new record's. */
  lemma {:induction false} CountUpdate(votes: seq<Vote>, i: nat, v: Vote, q: QuoteId, t: VoteType)
    requires i < |votes|
    ensures Count(votes[i := v], q, t) == Count(votes, q, t) - Tally(votes[i], q, t) + Tally(v, q, t)
  {
    if i == 0 {
      assert votes[i := v][1..] == votes[1..];
    } else {
      assert votes[i := v][1..] == votes[1..][i - 1 := v];
      CountUpdate(votes[1..], i - 1, v, q, t);
    }
  }

  /** A quote that some vote of type `t` is on has a count of at least one for `t`. */
  lemma CountPositive(votes: seq<Vote>, i: nat, q: QuoteId, t: VoteType)
    requires i < |votes| && votes[i].quoteId == q && votes[i].voteType == t
    ensures Count(votes, q, t) >= 1
  {
    CountUpdate(votes, i, votes[i].(voteType := t.Opposite()), q, t);
  }

  /** A quote no vote record is on has counts of zero. */
  lemma {:induction false} CountAbsent(votes: seq<Vote>, q: QuoteId, t: VoteType)
    requires forall i :: 0 <= i < |votes| ==> votes[i].quoteId != q
    ensures Count(votes, q, t) == 0
  {
    if votes != [] {
      assert votes[0].quoteId != q;
      CountAbsent(votes[1..], q, t);
    }
  }

  /** Removing a quote's votes zeroes its counts and leaves every other quote's counts as they were. */
  lemma {:induction false} CountWithoutQuote(votes: seq<Vote>, q: QuoteId, other: QuoteId, t: VoteType)
    ensures Count(WithoutQuote(votes, q), other, t) == if other == q then 0 else Count(votes, other, t)
  {
    if votes != [] {
      var head := if votes[0].quoteId == q then [] else [votes[0]];
      CountWithoutQuote(votes[1..], q, other, t);
      CountConcat(head, WithoutQuote(votes[1..], q), other, t);
    }
  }

  /** Counting distributes over concatenation. */
  lemma {:induction false} CountConcat(a: seq<Vote>, b: seq<Vote>, q: QuoteId, t: VoteType)
    ensures Count(a + b, q, t) == Count(a, q, t) + Count(b, q, t)
  {
    if a == [] {
      assert [] + b == b;
    } else {
      assert (a + b)[1..] == a[1..] + b;
      CountConcat(a[1..], b, q, t);
    }
  }

  /** Removing votes cannot create a second vote for a pair. */
  lemma {:induction false} WithoutQuoteKeepsOnePerPair(votes: seq<Vote>, q: QuoteId)
    requires AtMostOnePerPair(votes)
    ensures AtMostOnePerPair(WithoutQuote(votes, q))
  {
    if votes != [] {
      var rest := WithoutQuote(votes[1..], q);
      WithoutQuoteKeepsOnePerPair(votes[1..], q);
      if votes[0].quoteId != q {
        var r := [votes[0]] + rest;
        forall i, j | 0 <= i < j < |r|
          ensures !IsVoteOf(r[j], r[i].userId, r[i].quoteId)
        {
          if i == 0 {
            assert r[j] in votes[1..];
            var k :| 0 <= k < |votes[1..]| && votes[1..][k] == r[j];
            assert votes[k + 1] == r[j];
          } else {
            assert r[i] == rest[i - 1] && r[j] == rest[j - 1];
          }
        }
      }
    }
  }

  /** Storing a new quote with no votes under an unused id keeps the invariant. */
  lemma AddQuoteKeepsConsistency(quotes: map<QuoteId, Quote>, votes: seq<Vote>, id: QuoteId, quote: Quote)
    requires Consistent(quotes, votes) && id !in quotes
    requires quote.upvotes == 0 && quote.downvotes == 0
    ensures Consistent(quotes[id := quote], votes)
  {
    CountAbsent(votes, id, Upvote);
    CountAbsent(votes, id, Downvote);
  }

  /** Replacing a quote by one with the same counters keeps the invariant. */
  lemma SameCountersKeepConsistency(quotes: map<QuoteId, Quote>, votes: seq<Vote>, id: QuoteId, quote: Quote)
    requires Consistent(quotes, votes) && id in quotes
    requires quote.upvotes == quotes[id].upvotes && quote.downvotes == quotes[id].downvotes
    ensures Consistent(quotes[id := quote], votes)
  {
  }

  /** The exceptions the service throws; every one is a `BadRequestException`. */
  datatype Error =
    | TextRequired
    | TextCannotBeEmpty
    | QuoteNotFound
    | AlreadyVoted(direction: VoteType)
    | NotFoundOrAlreadyDeleted
  {
    /** The exception's message. */
    function Message(): (m: string)
      ensures m != []
    {
      match this
      case TextRequired => "Quote text is required"
      case TextCannotBeEmpty => "Quote text cannot be empty"
      case QuoteNotFound => "Quote not found"
      case AlreadyVoted(Upvote) => "User already upvoted"
      case AlreadyVoted(Downvote) => "User already downvoted"
      case NotFoundOrAlreadyDeleted => "Quote not found or already deleted"
    }
  }

  /** Callers can tell every error apart by its message alone. */
  lemma MessagesDistinct(e1: Error, e2: Error)
    ensures e1 != e2 ==> e1.Message() != e2.Message()
  {
  }
}
