/** The records the Crom GraphQL API returns, as far as the bot reads them. */
module Crom {
  import opened Wrappers

  /** `ATTRIBUTION_ORDER` lists these in this order. */
  datatype AttributionType = Submitter | Translator | Rewrite | Author | Maintainer

  datatype Attribution = Attribution(kind: AttributionType, displayName: string)

  datatype Page = Page(
    url: string,
    title: string,
    rating: int,
    createdAt: string,
    alternateTitles: seq<string>,
    attributions: seq<Attribution>)

  /** A wiki user with the statistics of one site; `userPageUrl` is `None` when the user has no page there. */
  datatype User = User(
    displayName: string,
    rank: int,
    totalRating: int,
    meanRating: int,
    userPageUrl: Option<string>)

  /**
   * The data of one query. An empty `searchPages` or `searchUsers` stands for a missing
   * or empty list alike: the program only tests their truth value and first element.
   */
  datatype Response = Response(
    wikidotPage: Option<Page>,
    matchingPages: Option<seq<Page>>,
    searchPages: seq<string>,
    searchUsers: seq<User>)

  /** One search result: a page with the pages that share its URL path, or a user. */
  datatype Entity =
    | PageEntity(page: Page, matchingPages: Option<seq<Page>>)
    | UserEntity(user: User)
}
