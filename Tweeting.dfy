/**
 * Posting a notification to Twitter. The client call itself is abstract: it
 * either succeeds or fails with a TwitterError carrying the platform's list
 * of error entries. The one rule of the poller is that a rejection whose
 * list is exactly one entry with code 187 ("duplicate status") is swallowed;
 * any other TwitterError is raised again to the caller.
 */
module Tweeting {

  /** Twitter's error code for a status identical to a recent one. */
  const DUPLICATE_STATUS := 187

  /** One entry of TwitterError.message: a dictionary such as {"code": 187, ...}. */
  datatype ErrorEntry = ErrorEntry(fields: map<string, int>)

  /** What PostUpdate does with a message. */
  datatype SendOutcome = Sent | Rejected(message: seq<ErrorEntry>)

  /** What escapes from tweet(): the re-raised TwitterError, or the KeyError of a lone entry without "code". */
  datatype TweetError = TwitterError(message: seq<ErrorEntry>) | MissingCode

  datatype TweetResult = Posted | DuplicateIgnored | Raised(error: TweetError)

  /** The test on the caught error: one entry, and that entry's code is 187. */
  predicate IsDuplicateStatus(message: seq<ErrorEntry>)
  {
    |message| == 1 && "code" in message[0].fields && message[0].fields["code"] == DUPLICATE_STATUS
  }

  /**
   * tweet(): try PostUpdate, and on a TwitterError either log the duplicate
   * and return normally, or raise. Returning normally happens exactly when
   * the post went through or was rejected as a duplicate; what is raised is
   * the original error, unchanged, except where indexing the lone entry for
   * "code" itself fails.
   */
  function Tweet(outcome: SendOutcome): (r: TweetResult)
    ensures r.Posted? <==> outcome.Sent?
    ensures r.DuplicateIgnored? <==> outcome.Rejected? && IsDuplicateStatus(outcome.message)
    ensures r.Raised? <==> outcome.Rejected? && !IsDuplicateStatus(outcome.message)
    ensures r == Raised(MissingCode) <==> outcome.Rejected? && |outcome.message| == 1 && "code" !in outcome.message[0].fields
    ensures r.Raised? && r.error.TwitterError? ==> r.error.message == outcome.message
  {
    match outcome
    case Sent => Posted
    case Rejected(message) =>
      if |message| == 1 && "code" !in message[0].fields then Raised(MissingCode)
      else if |message| == 1 && message[0].fields["code"] == DUPLICATE_STATUS then DuplicateIgnored
      else Raised(TwitterError(message))
  }

  /** Only a single-entry list can be a duplicate: a 187 among other entries is raised. */
  lemma DuplicateNeedsSingleEntry(message: seq<ErrorEntry>)
    requires |message| != 1
    ensures Tweet(Rejected(message)) == Raised(TwitterError(message))
  {
  }

  /** A single entry with any code other than 187 is raised. */
  lemma OtherCodesRaise(code: int, fields: map<string, int>)
    requires code != DUPLICATE_STATUS
    ensures Tweet(Rejected([ErrorEntry(fields["code" := code])])) == Raised(TwitterError([ErrorEntry(fields["code" := code])]))
  {
  }
}
