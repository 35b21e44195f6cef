/**
 * The records the judge's public API returns, as the client reads them. A field the
 * payload may omit is an `Option`; `None` is JavaScript's `undefined`.
 */
module Codeforces {
  import opened Wrappers

  /** `problem` of a submission. A missing `tags` list reads as `[]` everywhere it is used. */
  datatype Problem = Problem(contestId: Option<int>, index: Option<string>, rating: Option<int>, tags: seq<string>)

  /**
   * One entry of `user.status`. A submission still being judged has no verdict, and
   * `verdictCounts[undefined]` files it under the text "undefined": that text is its verdict here.
   */
  datatype Submission = Submission(verdict: string, creationTimeSeconds: int, problem: Option<Problem>)

  /** One entry of `user.rating`, oldest first. */
  datatype RatingChange = RatingChange(contestId: int, contestName: string, newRating: int, ratingUpdateTimeSeconds: int)

  /** One entry of `user.info`. */
  datatype Profile = Profile(
    handle: string,
    rating: Option<int>,
    maxRating: Option<int>,
    rank: Option<string>,
    maxRank: Option<string>,
    contribution: Option<int>,
    organization: Option<string>,
    avatar: Option<string>,
    titlePhoto: Option<string>)

  /**
   * The problem key `${contestId}-${index}`. Two keys are the same text exactly when
   * they are equal here: an integer's decimal text has no '-' after its sign, and a
   * missing contest id (printed "undefined") never reads like an integer. A missing
   * index prints as "undefined", so it is that text here.
   */
  datatype Key = Key(contest: Option<int>, index: string)

  /** JavaScript truthiness of an optional number: present and not 0. */
  predicate Truthy(x: Option<int>) {
    x.Some? && x.value != 0
  }

  /** JavaScript truthiness of an optional string: present and not empty. */
  predicate TruthyText(x: Option<string>) {
    x.Some? && x.value != ""
  }

  /** How a template literal prints an optional string. */
  function Spelled(x: Option<string>): string {
    x.GetOr("undefined")
  }

  /** The key of a problem. */
  function KeyOf(p: Problem): Key {
    Key(p.contestId, Spelled(p.index))
  }
}
