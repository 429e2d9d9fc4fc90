/**
 * Concrete runs of the model: the flips the service's unit tests describe,
 * plus further edge cases (counter drift, voting after a delete, a page count
 * over many matches, a negative page).
 */
module Scenarios {
  import opened Wrappers
  import opened Model
  import opened Voting
  import opened Editing
  import opened Querying
  import opened Quotes

  /**
   * A quote at (2, 1) on which the caller holds a downvote: upvoting takes it
   * to (3, 0) and turns that vote into an upvote; upvoting once more is
   * rejected and changes nothing.
   */
  lemma FlipThenRepeat()
    ensures var s0 := Stores(map[5 := Quote("Test create", "Tester", 2, 1)], [Vote(1, 5, VoteType.Downvote)]);
      var (flipped, s1) := Cast(s0, 5, 1, VoteType.Upvote);
      && flipped == Success(Quote("Test create", "Tester", 3, 0))
      && s1.votes == [Vote(1, 5, VoteType.Upvote)]
      && Cast(s1, 5, 1, VoteType.Upvote) == (Failure(AlreadyVoted(VoteType.Upvote)), s1)
  {
  }

  /** A quote at (1, 0) on which the caller holds an upvote: downvoting takes it to (0, 1). */
  lemma DownvoteFlip()
    ensures var s0 := Stores(map[5 := Quote("Test create", "Tester", 1, 0)], [Vote(1, 5, VoteType.Upvote)]);
      Cast(s0, 5, 1, VoteType.Downvote).0 == Success(Quote("Test create", "Tester", 0, 1))
  {
  }

  /**
   * When the counters have drifted from the vote records (here both are 0 while
   * a downvote exists), a flip floors the lowered counter at 0 instead of
   * taking it negative.
   */
  lemma FloorMasksDrift()
    ensures var s0 := Stores(map[5 := Quote("t", "a", 0, 0)], [Vote(1, 5, VoteType.Downvote)]);
      && !Model.Consistent(s0.quotes, s0.votes)
      && Cast(s0, 5, 1, VoteType.Upvote).0 == Success(Quote("t", "a", 1, 0))
  {
    assert Count([Vote(1, 5, VoteType.Downvote)], 5, VoteType.Downvote) == 1;
  }

  /** A quote that is deleted cannot be voted on afterwards, and its votes are gone. */
  method VoteAfterDelete() returns (r: Result<Quote, Error>, remaining: nat)
    ensures r == Failure(QuoteNotFound)
    ensures remaining == 0
  {
    var service := new QuotesService();
    var created := service.Create(Some("hi"), None);
    assert created.value.1.author == "Unknown";
    var id := created.value.0;
    var _ := service.Downvote(id, 7);
    var _ := service.Delete(id);
    r := service.Upvote(id, 7);
    remaining := |service.votes|;
  }

  /** Page 1 of 10 over 25 matches spans 3 pages; over 1 match, 1 page. */
  method PageCounts() returns (of25: Listing, of1: Listing)
    ensures of25.page == 1 && of25.limit == 10 && of25.skip == 0 && of25.totalPages == 3
    ensures of1.totalPages == 1
  {
    var q := ListQuery(Some(1), Some(10), None, None, None, None);
    of25 := ListingOf(q, 25);
    of1 := ListingOf(q, 1);
  }

  /** `GET /quotes?page=-1`: page -1 of 10 asks for a skip of -20, which the database refuses, so nothing is listed. */
  method NegativePageRejected() returns (r: Option<Listing>)
    ensures r.None?
  {
    var service := new QuotesService();
    r := service.FindAll(ListQuery(Some(-1), None, None, None, None, None), (text, pattern) => true);
  }
}
