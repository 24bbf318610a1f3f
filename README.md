# Crom reddit bot — a verified model

Crom is a reddit bot for the SCP Foundation wiki. It watches submissions, comments
and inbox mentions. It finds mentions of SCP articles in their text: `[[...]]` brackets,
international codes such as `SCP-001-FR` or `SCP-PL-001`, and bare `SCP-173` style
numbers. It looks each mention up in the Crom GraphQL API and replies with a formatted
list of the pages and users it found. The bot keeps each item it answered in a cache
until two minutes have passed since the item was created. The next revisit pass after
that fetches the item again: it deletes its reply if the item was removed, and hands the
item back for re-processing if its text was edited.

This project models that core in Dafny and proves properties of the model:

| file | module | what it models |
|---|---|---|
| `wrappers.dfy` | `Wrappers` | `Option` and `Result` |
| `text.dfy` | `Text` | ASCII character classes, case-insensitive matching, `str.replace`, joining, integer to decimal |
| `seqs.dfy` | `Seqs` | flattening, subsequences, the order-preserving `_uniq_by` |
| `patterns.dfy` | `Patterns` | one hand-written matcher per regular expression of the extractor; `Scan` is `re.finditer` (leftmost, non-overlapping), `Sub` is `re.sub(p, "", s)` |
| `parse.dfy` | `Parse` | the mention extractor `parse` |
| `crom.dfy` | `Crom` | the records the Crom API returns (pages, users, attributions) and the client as a function |
| `search.dfy` | `Search` | request building, batching by 25, result selection and de-duplication of `search` |
| `response.dfy` | `Response` | the reply formatter `generate_response` and its helpers |
| `bot.dfy` | `Bot` | the revisit cache, reply objects, permalink normalisation, and the submission and comment handlers |

The pure stages of `parse.py`, `search.py` and `response.py` are functions. They are
specified by lemmas. Each loop of the source is a method whose `ensures` ties it to one of
these functions: the extractor's stages (`Parse.Parse`), the batching and selection loops
(`Search.SendBatches`, `Search.SelectResults`, composed in `Search.RunSearch`) and the formatter's line builders (`Response.GenerateResponse`).
The bot's state is imperative:
- a reply object is a class (`Bot.Reply`);
- the dictionaries `replied_text_submissions` and `replied_comments` are a class
  `Bot.Cache` with an entry map and the insertion order of its keys;
- the revisit walks are methods over that cache, proved against specification functions
  (`Kept`, `KeptEntries`, `Revisits`).

The handlers are split in two. A pure decision (`SubmissionDecision`, `CommentDecision`)
says whether to ignore the item, report a failed search, or answer it with a reply text.
A method (`ProcessSubmission`, `ProcessComment`) carries out that decision on the cache
and the reply objects.

Everything outside the program's own logic is a parameter:
- `client` is the Crom API: a batch of requests maps to responses, or to `None` on failure;
- `sanitize` is the markdown sanitiser;
- `today` is the current date and `now` the current time in seconds;
- `clean` stands for the `urljoin`/`urlparse` chain and `host` for `urlsplit(...).netloc`;
- `posted` stands for the "posted N ago" text of a page;
- `refetch` is reddit's fresh copy of an item.

The GraphQL variable for the by-URL lookup keeps the key `"url"`, as the code writes it.

## Model

| member | source | states |
|---|---|---|
| Text.LowerStr | src/crombird_reddit/search.py:91 | Lower-casing keeps the length, leaves no `A`-`Z` in the result, maps each `A`-`Z` to its lower-case partner and keeps every other character |
| Text.LowerStrIdempotent | src/crombird_reddit/search.py:91 | Lower-casing an already lower-cased string changes nothing |
| Text.ReplaceRemoves | src/crombird_reddit/bot.py:427-430 | After `s.replace(q, r)`, `q` no longer occurs when `r` cannot start or complete a new `q` |
| Text.ReplaceKeepsAbsent | src/crombird_reddit/bot.py:427-430 | A later `replace` cannot reintroduce a pattern `p` that is already absent, when `r` cannot produce `p` |
| Text.DigitsValueOfNatToString | src/crombird_reddit/response.py:178-181 | The decimal text of `n` reads back as `n` |
| Seqs.FlattenMembers | src/crombird_reddit/parse.py:96-106 | Every element of a flattened list comes from one of its parts |
| Seqs.UniqByIsSubsequence | src/crombird_reddit/search.py:163-173 | Every item `_uniq_by` keeps is taken from its input, without reordering (the output is a subsequence of the input) |
| Seqs.UniqByOrder | src/crombird_reddit/search.py:163-173 | The kept items come in the order in which their keys first occur in the input (`[1, 2, 1]` gives `[1, 2]`) |
| Seqs.UniqByMembers | src/crombird_reddit/search.py:163-173 | Every kept item is from the input and its key was not already tracked |
| Seqs.UniqByDistinct | src/crombird_reddit/search.py:163-173 | The kept items have pairwise distinct keys |
| Seqs.UniqByCovers | src/crombird_reddit/search.py:163-173 | Every key of the input, unless already tracked, is represented in the output |
| Seqs.UniqByKeepsFirst | src/crombird_reddit/search.py:163-173 | The item kept for a key is the first input item with that key |
| Patterns.DigitsEndMeaning | src/crombird_reddit/parse.py:38 | `\d{3,4}` followed by a non-digit: matches exactly when the digit run from `k` has length 3 or 4 |
| Patterns.BracketAtMeaning | src/crombird_reddit/parse.py:41 | `\[\[([^\]]*?)\]\]` matches at `i` exactly up to the first `]` after `[[`, when that `]` is doubled, capturing what is between |
| Patterns.SpoilerAtMeaning | src/crombird_reddit/parse.py:50 | `>!(.+?)!<` matches at `i` up to the first `!<` leaving a non-empty group; no match means no `>!` or no later `!<` |
| Patterns.UrlAtMeaning | src/crombird_reddit/parse.py:51 | The URL pattern matches iff `http://` or `https://` starts at `i` (any case), and the match runs to the next space or the end |
| Patterns.DecimalAtMeaning | src/crombird_reddit/parse.py:52 | A decimal match is digits, one `.` or `,`, digits, and is not followed by a digit |
| Patterns.UserMentionAtMeaning | src/crombird_reddit/parse.py:53 | A user mention is an optional `/`, `u/` in any case, and a maximal non-empty run of name characters |
| Patterns.IntlGroupEndMeaning | src/crombird_reddit/parse.py:13-34 | The end found for an international shape delimits a group of that shape (digits and code with the allowed joiner) |
| Patterns.IntlAtMeaning | src/crombird_reddit/parse.py:13-34 | An international match is `SCP`, an optional separator, a group of the branch's shape, and no word character after it |
| Patterns.SuffixEndMeaning | src/crombird_reddit/parse.py:38 | The `(-[a-zA-Z0-9]+)*` tail after the number exists iff the next character is not a word character, and it ends on a chain boundary followed by no word character |
| Patterns.SuffixEndLongest | src/crombird_reddit/parse.py:38 | The chain end chosen by backtracking is the longest one that is followed by no word character |
| Patterns.BareAtMeaning | src/crombird_reddit/parse.py:38 | The bare pattern matches iff `SCP`, a separator, 3 or 4 digits and a word boundary follow; the match is that prefix plus a suffix chain |
| Patterns.ScanOrdered | src/crombird_reddit/parse.py:117 | `finditer` yields matches in increasing order and without overlap |
| Patterns.ScanMatches | src/crombird_reddit/parse.py:117 | Every span `finditer` yields is the pattern's match at its start |
| Patterns.ScanLeftmost | src/crombird_reddit/parse.py:117 | A position that no yielded match covers is not the start of a match (the scan misses nothing) |
| Patterns.SubIsGaps | src/crombird_reddit/parse.py:85 | `re.sub(p, "", s)` is the text between the matches `finditer` yields |
| Patterns.SubWithoutMatches | src/crombird_reddit/parse.py:106 | `re.sub` with no match leaves the text unchanged |
| Patterns.SubIsSubsequence | src/crombird_reddit/parse.py:90 | Deleting matches only removes characters: the result is a subsequence of the input |
| Parse.SiteFrom | src/crombird_reddit/parse.py:72-79 | Picks the site of the first international branch whose pattern matches the whole text, else the English wiki |
| Parse.BracketSite | src/crombird_reddit/parse.py:72-79 | A bracket mention is routed to the first fully matching branch's site, or to the English wiki when none matches |
| Parse.StandaloneTwoFrom | src/crombird_reddit/parse.py:44 | True iff some `2` in the text has no ASCII digit on either side |
| Parse.DeleteFalsePositives | src/crombird_reddit/parse.py:89-90 | The loop deletes the false-positive patterns in their listed order (equals `StripFalsePositives`) |
| Parse.MatchBranches | src/crombird_reddit/parse.py:92-106 | The loop over the international branches returns each branch's queries in table order and the text with every match deleted (equals `IntlPass`) |
| Parse.Parse | src/crombird_reddit/parse.py:57-135 | The extractor returns exactly `ParseSpec`: bracket, international, bare and April queries, in that order |
| Parse.BracketQueriesExact | src/crombird_reddit/parse.py:66-84 | Each `[[...]]` with a non-blank group gives one free-text query of that group, routed by `BracketSite`; blank groups give none |
| Parse.IntlScanGroups | src/crombird_reddit/parse.py:96-104 | Every group an international pattern captures has that branch's shape |
| Parse.IntlQueriesShape | src/crombird_reddit/parse.py:96-104 | Each branch yields bare queries with its own site and a group of its shape |
| Parse.IntlPartsShape | src/crombird_reddit/parse.py:92-106 | Part `k` of the international stage holds only branch `k`'s bare queries for its site |
| Parse.IntlPassConsumes | src/crombird_reddit/parse.py:106 | After branch `k`, the remaining text is the previous text with exactly branch `k`'s matches removed |
| Parse.BareMatchValue | src/crombird_reddit/parse.py:108-119 | A bare match's group is `SCP`, a separator, 3-4 digits and a `-` chain, and is followed by no word character |
| Parse.PrimaryQueriesShape | src/crombird_reddit/parse.py:108-119 | Bare mentions become free-text queries on the English wiki whose value has the bare form |
| Parse.FiveDigitsNoBareMatch | src/crombird_reddit/parse.py:38 | `SCP-` followed by five digits is not a bare mention |
| Parse.ParseOrder | src/crombird_reddit/parse.py:57-135 | The result is brackets, then the international parts in table order, then bare mentions, then the April query, each block with its kind and site |
| Parse.BracketsDeleted | src/crombird_reddit/parse.py:85 | All `[[...]]` spans are deleted before the later stages read the text |
| Parse.FalsePositiveOrder | src/crombird_reddit/parse.py:49-54 | False positives are deleted as spoilers, then URLs, then decimals, then user mentions |
| Parse.SanitizerUse | src/crombird_reddit/parse.py:62-64 | A submission title is not sanitised; every other text is sanitised once, before everything else |
| Parse.AprilRule | src/crombird_reddit/parse.py:121-133 | The `2` query appears at most once, last, and iff the context is a comment, the date is 1 April and a standalone `2` is left in the text |
| Parse.QueriesHaveSite | src/crombird_reddit/parse.py:57-135 | Every query the extractor returns names a site |
| Search.ChunksFlatten | src/crombird_reddit/search.py:157-160 | Concatenating the chunks gives back the list |
| Search.ChunksLengths | src/crombird_reddit/search.py:157-160 | Every chunk but the last has exactly `n` items; the last has 1 to `n`; no chunks iff the list is empty |
| Search.UrlSegmentIsLowerReplace | src/crombird_reddit/search.py:94 | The URL segment of a BARE query is the value lower-cased with every space replaced by `-` |
| Search.BuildRequest | src/crombird_reddit/search.py:86-112 | URL queries look up the lower-cased URL; bare queries look up `site/scp-<segment>`; free-text queries send the lower-cased text and the site |
| Search.BatchesShape | src/crombird_reddit/search.py:83-113 | The batches hold one request per query, in order, and each batch has 1 to 25 requests |
| Search.Select | src/crombird_reddit/search.py:115-143 | Case by case, in order: users but no query `i` is an index error; a first user whose name equals the query's value ignoring case is chosen; otherwise the wikidot page with its matching pages; otherwise the follow-up for the first search hit gives the client failure, an index error for an empty answer, or the first record's page and matching pages; otherwise nothing |
| Search.Uniq | src/crombird_reddit/search.py:163-173 | The loop with a tracking set computes `UniqBy` |
| Search.SendBatches | src/crombird_reddit/search.py:81-113 | The batching loop sends the groups of 25 in order and returns all their responses concatenated, or `None` from the first failing batch on (equals `Collect` over `Batches`) |
| Search.SelectResults | src/crombird_reddit/search.py:115-143 | The selection loop picks at most one result per response, in order, and stops at the first failed follow-up (equals `SelectAll`) |
| Search.RunSearch | src/crombird_reddit/search.py:81-154 | The search loop returns exactly `SearchSpec`: batched requests, per-query selection, de-duplication, or the first failure |
| Search.AtMostOneResultPerQuery | src/crombird_reddit/search.py:115-143 | With a client that answers every request, a search returns at most one result per query |
| Search.DedupFirstSeen | src/crombird_reddit/search.py:145-154 | De-duplicating the selected items gives results with distinct keys (page URL or user name), one for every key found, each the entity of the first item found with its key, in first-seen order |
| Search.ResultsDistinct | src/crombird_reddit/search.py:81-154 | A successful search returns the selected items de-duplicated in that way: distinct keys, every key present, first item of each key, first-seen order |
| Response.FormatRating | src/crombird_reddit/response.py:178-181 | A rating is a sign, `+` for zero and above, then at least one digit |
| Response.RatingRoundTrip | src/crombird_reddit/response.py:178-181 | Reading the formatted rating back gives the rating |
| Response.Httpsify | src/crombird_reddit/response.py:184-185 | A leading `http://` becomes `https://`; other URLs are unchanged; the result never starts with `http://` |
| Response.HttpsifyIdempotent | src/crombird_reddit/response.py:184-185 | Applying it twice is the same as once |
| Response.SortedAttributionsPermutation | src/crombird_reddit/response.py:79-82 | Sorting the attributions keeps exactly the same attributions |
| Response.SortedAttributionsOrdered | src/crombird_reddit/response.py:6 | The sorted attributions follow `ATTRIBUTION_ORDER` |
| Response.SortedAttributionsStable | src/crombird_reddit/response.py:79-82 | Attributions of one type keep their original relative order (a stable sort) |
| Response.UniqueNamesMeaning | src/crombird_reddit/response.py:100-115 | The credited names are distinct, are exactly the attributions' display names, and come in the order of each name's first attribution |
| Response.CreditedNamesMeaning | src/crombird_reddit/response.py:100-115 | A translation with translators credits translators only, otherwise every attribution; names are distinct; some name iff some attribution |
| Response.PageLink | src/crombird_reddit/response.py:72-90 | The bold title link carries the separator and the first alternate title right after the title exactly when that alternate title is non-empty and differs from the title; otherwise it is the title alone |
| Response.TranslationPreference | src/crombird_reddit/response.py:117-149 | A translation is shown only for a non-English page, comes from the matching pages, prefers the English wiki, and exists iff one of the two wikis has one |
| Response.PageLineShape | src/crombird_reddit/response.py:58-152 | A page entry starts with `- ` iff it is a list item and ends with a newline |
| Response.RatingOmittedIffSubmissionUrl | src/crombird_reddit/response.py:91-92 | The rating appears right after the link unless the page is the submission's own URL, and nothing else differs |
| Response.TranslationDepthOne | src/crombird_reddit/response.py:117-149 | A translation's own line carries no further translation |
| Response.UserLineShape | src/crombird_reddit/response.py:155-175 | A user entry starts with `- ` iff it is a list item and ends with a newline |
| Response.ShortPart | src/crombird_reddit/response.py:41-53 | In the short form a page is `[title](https url)`, a user with a page is `[*name*](https url)`, and a user without one is the plain name |
| Response.FormatShortShape | src/crombird_reddit/response.py:38-55 | The short form is the parts joined by `", "` then `.`: one result gives its part and `.`; a longer list gives the first part, `", "` and the short form of the rest |
| Response.LongForm | src/crombird_reddit/response.py:17-35 | The long form, after the header of a submission, ends with a newline whenever there is a result |
| Response.EntityLineShape | src/crombird_reddit/response.py:22-33 | Every entry starts with `- ` iff it is a list item and ends with a newline |
| Response.ShortFormIff | src/crombird_reddit/response.py:14-15 | A non-empty reply ends with `.` (the short form) iff there are more than ten results outside a submission |
| Response.EmptyResponse | src/crombird_reddit/response.py:19-20 | With no results the reply is the header for a submission and empty otherwise |
| Response.ListItemsIffSeveral | src/crombird_reddit/response.py:85-86 | In the long form each entry is a list item iff there are several results |
| Response.CollectNames | src/crombird_reddit/response.py:100-115 | The name loop computes `UniqueNames` |
| Response.Credits | src/crombird_reddit/response.py:96-115 | The credit loop builds the byline `Byline` |
| Response.MainResponse | src/crombird_reddit/response.py:58-115 | The page-line builder computes `MainLine` |
| Response.PageResponse | src/crombird_reddit/response.py:58-152 | The page entry builder computes `PageLine`, translation included |
| Response.EntityResponse | src/crombird_reddit/response.py:22-33 | One result's entry is `EntityLine` |
| Response.AppendLines | src/crombird_reddit/response.py:22-33 | The loop over results appends every entry, in order, to the header |
| Response.GenerateResponse | src/crombird_reddit/response.py:9-35 | The formatter returns exactly `ResponseText` |
| Bot.Reply.constructor | src/crombird_reddit/bot.py:303 | A posted reply has the reply text, is not deleted and was never deleted |
| Bot.Reply.Delete | src/crombird_reddit/bot.py:191 | Deleting a reply marks it deleted, counts one more deletion and keeps its text |
| Bot.Reply.Edit | src/crombird_reddit/bot.py:310 | Editing a reply sets its text and nothing else |
| Bot.Cache.constructor | src/crombird_reddit/bot.py:45-46 | The caches start empty |
| Bot.Cache.Remove | src/crombird_reddit/bot.py:186 | `del cache[id]` removes that key from the map and from the insertion order |
| Bot.Cache.Put | src/crombird_reddit/bot.py:304-308 | `cache[id] = entry` sets the key; a new key goes to the end of the insertion order, an existing key keeps its place |
| Bot.WithoutMembers | src/crombird_reddit/bot.py:186 | Removing a key from the order keeps exactly the other keys |
| Bot.KeptMembers | src/crombird_reddit/bot.py:183-186 | The keys kept by a revisit walk are exactly the keys that are not due yet |
| Bot.KeptEntries | src/crombird_reddit/bot.py:183-186 | The cache after a walk holds exactly the entries that are not due, unchanged |
| Bot.CheckRevisit | src/crombird_reddit/bot.py:168-236 | The walk keeps exactly the entries not due, in order; returns `Revisits`; deletes each due entry's reply once iff the fresh item is removed, and touches no other reply |
| Bot.CheckRevisitSubmissions | src/crombird_reddit/bot.py:168-201 | The same for submissions: cutoff `now - revisit_age` on the creation time (two minutes by default), removed means no author or a removal category, edited means a changed selftext |
| Bot.CheckRevisitComments | src/crombird_reddit/bot.py:204-236 | The same for comments: removed means no author or banned, edited means a changed body |
| Bot.RevisitsMeaning | src/crombird_reddit/bot.py:183-199 | An entry is handed back iff its key was due, the fresh item is not removed and its text changed; it is the fresh item with the old queries and reply |
| Bot.NormalizeRewrites | src/crombird_reddit/bot.py:418-431 | A normalised permalink contains no `https://` and none of the three alternate wiki hosts |
| Bot.SubmissionQueriesShape | src/crombird_reddit/bot.py:257-282 | A link to a known host gives one URL query without a site, first; then the title's queries; then the selftext's only for a self post |
| Bot.SubmissionDecisionMeaning | src/crombird_reddit/bot.py:252-301 | A submission is searched iff it is new, has queries and they changed; it is answered iff that search finds results |
| Bot.CommentDecisionMeaning | src/crombird_reddit/bot.py:354-389 | A comment is searched iff it is new, has an author who is not a bot, is not banned, is not a mention in a watched subreddit, and has changed queries; it is answered iff that search finds results |
| Bot.Respond | src/crombird_reddit/bot.py:302-313 | With no previous reply a new reply is posted and cached; a previous reply is edited only when its text differs; the result says whether anything was sent |
| Bot.AnswerQueries | src/crombird_reddit/bot.py:284-313 | No queries or unchanged queries, or a search with no results, change nothing; a failed search reports its error; otherwise the reply is posted and cached, or edited, as `AnswerFor` decides |
| Bot.CollectSubmissionQueries | src/crombird_reddit/bot.py:257-282 | The queries are gathered from the link, the title and, for a self post, the text, in that order (equals `SubmissionQueries`) |
| Bot.ProcessSubmission | src/crombird_reddit/bot.py:239-336 | Ignored submissions change nothing; a failed search changes nothing and reports the error; an answer is posted and cached, or edited into the previous reply |
| Bot.ProcessComment | src/crombird_reddit/bot.py:339-415 | The same for comments and mentions |

## Left out

- Regular expressions, `str.lower()`, `\d`, `\w` and `\s` are modelled for ASCII text only; Python also matches other Unicode digits, letters and spaces.
- The markdown sanitiser (`utils/sanitize_markdown.py`) is a function parameter; its own rules are not part of this model.
- The Crom HTTP client (`utils/crom_client.py`), including its retry, is the `client` parameter: a batch of requests gives responses or `None`.
- `urljoin`, `urlparse` and `urlsplit(...).netloc` are the `clean` and `host` parameters.
- Clocks are parameters: `today` for the April rule, `now` and `start` as integer seconds for the handlers and the revisit walks; floating-point timestamps are not modelled.
- The "posted N ago" text (`timeago`) is the `posted` parameter.
- Reddit itself is left out: the streams, `start_bot` and its polling loop, and the fetch of a fresh item, which is the `refetch` parameter.
- Logging, metrics, the stickying of replies and `_log_response` are left out; they do not affect replies or caches.
- Bot.ProcessSubmission: exceptions raised by reddit while posting or editing, which the handler catches and logs, are not modelled; only search failures are reported, as `Err`.
- Bot.ProcessComment: the same exceptions are not modelled for comments.
- `comment_type` is the datatype `CommentKind`; a `comment_subreddits` of `None` is modelled as the empty list.
- `banned_by` is an optional string: `True` and a non-empty moderator name are both a present, non-empty value.
- Response.ShortPart and Response.UserLine: a user whose `userPage` is JSON `null` (not missing) makes `.get("url")` raise in response.py:49 and 163; the handlers catch it (bot.py:334-335, 413-414) and post nothing, while the model has no null user page, treats it as absent and posts the plain name.
- Response.CreditedNames: an attribution whose `user` is `null` makes response.py:108 and 113 raise, so nothing is posted; the model's attribution always carries a display name and cannot represent that record.
- Bot.SubmissionDecisionMeaning and Bot.CommentDecisionMeaning characterise the decision functions directly; they carry no proof beyond unfolding those functions.
