# RSS-to-Twitter bot: a Dafny model of one invocation

The bot is an AWS Lambda function triggered once an hour. Each invocation
computes a cutoff (the trigger time, cast to an unsigned 64-bit count of
seconds, minus one hour). It then walks every
configured Twitter account and, for each account, its feeds in order. For
each feed it downloads the document and reads it as RSS or Atom, according
to the feed's type string. It walks the entries in document order and posts
every entry newer than the cutoff whose title passes the feed's filter. The
post text is the title, a newline and the link. A document the reader
rejects is reported on standard error and, when direct messages are
switched on, to an operator account.

The model follows `src/main.rs`:

- `wrappers.dfy` (`Wrappers`): the `Option` type.
- `text.dfy` (`Text`): the three Rust string operations the filter uses.
  - `Contains` is `str::contains`.
  - `DeleteAll` is `str::replace(marker, "")`: one left-to-right pass.
  - `Split` is `str::split(',')`, which always yields at least one piece.
  - With them come the lemmas the filter proofs need: `Split` and
    `JoinWith` are inverse, and deleting a comma-free marker commutes with
    splitting on commas.
- `filter.dfy` (`TitleFilter`): the filter decision of `send_tweets`.
  - `Passes` is the specification.
  - `FilterTitle` is the imperative flag-and-loop version, proved equal to
    it.
  - Lemmas state the literal semantics: the marker may stand anywhere,
    every occurrence is deleted, an empty piece matches every title, and
    `INCLUDE:` wins over `EXCLUDE:`.
- `messages.dfy` (`Messages`): the post text and the error-report text.
  Both are shown to come apart again at their first newline.
- `timing.dfy` (`Timing`): timestamps and novelty.
  - The `i64`-to-`u64` cast of timestamps, the cutoff and the strict
    novelty test.
  - The Atom `published`/`updated` fallback.
  - The RSS date-format choice: the RFC 3339 (section 5.6) parser for a
    date holding `Z`, the RFC 2822 (section 3.3) parser otherwise.
- `pipeline.dfy` (`Pipeline`): `send_tweets`, `filter_tweets_rss`,
  `filter_tweets_atom`, `send_error_twitter_dm`, `post_tweets_for_account`
  and `function_handler`.
  - Each is an imperative method. It returns the ordered log of effects it
    causes: lines on standard output or standard error, posted tweets and
    direct messages. Each method is proved equal to a specification
    function.
  - An `unwrap` that fails in the program is a `Trace` with
    `finished == false`. Nothing happens after it.

Everything outside the program is a field of the `World` value: the
network, the two feed readers, the two date parsers, the two date
formatters, and whether a direct message is delivered. The two deployment
switches are a `Switches` value. `DEPLOYED_SWITCHES` holds the source's
values: posting on, direct messages off.

Notable behaviour of the code, which the model keeps:

- An include filter with no terms (`INCLUDE:` alone) posts every entry,
  because splitting yields one empty piece, although the comment at
  src/main.rs:62 says the tweet is blocked until an include term matches.
  See `TitleFilter.LoneMarkers`.
- A failed download is a panic that ends the invocation, not just that
  feed. See `Pipeline.FetchFailureStopsAccount`.
- A missing `pubDate`, an unreadable date, a missing title on a new RSS
  item, or a new Atom entry without links ends the invocation.
- The error report names the account's cutoff time (`timestamp_lambda`),
  one hour before the invocation, not the invocation time.
- Before the report is written, the cutoff is turned into a clock time.
  An invocation dated before 1970 wraps to a cutoff beyond the platform
  clock's range, so the first rejected document panics instead of being
  reported. See `Pipeline.PreEpochInvocationReportPanics`.
- The feed type is an open string. A feed whose type is neither `RSS` nor
  `ATOM` is downloaded and then silently ignored.
- The filter markers are found anywhere in the filter string, not only as
  a prefix.

## Model

| member | source | states |
|---|---|---|
| Text.ContainsIff | src/main.rs:66 | the substring scan used for `contains` holds exactly when the pattern occurs at some index of the string |
| Text.DeleteAll | src/main.rs:63 | `replace(marker, "")` never lengthens the filter, introduces no new character, and leaves it unchanged iff the marker does not occur |
| Text.DeleteAllAround | src/main.rs:63 | for a marker that cannot overlap itself, the text before its first occurrence is kept verbatim and the scan goes on after it |
| Text.DeleteAllAcrossSeparator | src/main.rs:63-64 | a marker without commas is deleted field by field: no occurrence spans a comma |
| Text.Split | src/main.rs:64 | `split(',')` yields at least one piece and no piece holds a comma |
| Text.JoinSplit | src/main.rs:64 | the pieces joined with commas give back the split string |
| Text.SplitJoin | src/main.rs:64 | comma-free pieces joined with commas split back into the same pieces |
| Text.SplitAtSeparator | src/main.rs:72 | splitting at one comma splits the two sides independently |
| Text.SplitAfterDeleteAll | src/main.rs:63-64 | deleting the marker and then splitting equals splitting and then deleting the marker inside every field |
| TitleFilter.FilterTitle | src/main.rs:56-79 | the flag computed by the two `for s in split` loops is exactly `Passes`: empty filter passes; with `INCLUDE:` anywhere, pass iff some piece is in the title; else with `EXCLUDE:`, pass iff no piece is; else pass |
| TitleFilter.EmptyFilterPassesAll | src/main.rs:56-59 | an empty filter lets every title through |
| TitleFilter.UnmarkedFilterPassesAll | src/main.rs:59-79 | a non-empty filter with neither marker lets every title through |
| TitleFilter.IncludeReadsEachField | src/main.rs:61-69 | with `INCLUDE:` anywhere, a title passes iff it contains some comma field of the raw filter with every `INCLUDE:` deleted; `EXCLUDE:` is never consulted |
| TitleFilter.ExcludeReadsEachField | src/main.rs:70-77 | with `EXCLUDE:` but no `INCLUDE:`, a title passes iff it contains no comma field of the raw filter with every `EXCLUDE:` deleted |
| TitleFilter.IncludeMarkerAnywhere | src/main.rs:61-64 | `a + "INCLUDE:" + b` includes the comma pieces of `a + b`: the marker need not be a prefix |
| TitleFilter.ExcludeMarkerAnywhere | src/main.rs:70-72 | `a + "EXCLUDE:" + b` without `INCLUDE:` excludes the comma pieces of `a + b` |
| TitleFilter.IncludeSingleTerm | src/main.rs:61-69 | `INCLUDE:term` passes exactly the titles containing `term` |
| TitleFilter.ExcludeSingleTerm | src/main.rs:70-77 | `EXCLUDE:term` passes exactly the titles not containing `term` |
| TitleFilter.ConfiguredFilters | src/main.rs:239-242 | the deployed `INCLUDE:Rust` passes iff the title contains `Rust`; `EXCLUDE:iPhone` passes iff it does not contain `iPhone` |
| TitleFilter.EmptyIncludePieceAdmitsAll | src/main.rs:63-67 | an empty include piece matches every title, so every entry is posted |
| TitleFilter.EmptyExcludePieceBlocksAll | src/main.rs:71-76 | an empty exclude piece matches every title, so no entry is posted |
| TitleFilter.LoneMarkers | src/main.rs:61-76 | `INCLUDE:` alone posts every title; `EXCLUDE:` alone posts none |
| TitleFilter.TrailingComma | src/main.rs:63-76 | a trailing comma makes an include filter pass every title and an exclude filter block every title |
| Messages.TweetTextRoundTrip | src/main.rs:82 | the post text of a one-line title splits at its first newline into exactly the title and the link |
| Messages.ErrorTextRoundTrip | src/main.rs:185 | the report splits at its first newline into `Feed: <name> at <time>` and the complete error text |
| Timing.AsU64 | src/main.rs:136-138 | `timestamp() as u64` keeps non-negative seconds and wraps negative ones to `t + 2^64` |
| Timing.Cutoff | src/main.rs:199 | the cutoff plus `CRON_TIME` (3600) is the invocation time cast to `u64`; for post-epoch times it is that time minus 3600 |
| Timing.NoveltyIsStrict | src/main.rs:113 | a post-epoch entry is new iff its time is strictly greater than the cutoff; equal is old |
| Timing.PreEpochEntryAlwaysNew | src/main.rs:136-141 | an entry dated before 1970 wraps to a huge `u64` and is new against every cutoff below 2^63, so on every invocation dated after 1970 |
| Timing.NewWithinLastInterval | src/main.rs:199 | with the cutoff of an invocation at least 3600 seconds after 1970, a post-epoch entry is new iff it is less than 3600 seconds older than the invocation |
| Timing.RssDateFormatByCharacter | src/main.rs:107-111 | the RFC 3339 parser is chosen iff some character of the `pubDate` is `Z`, otherwise the RFC 2822 parser |
| Timing.AtomTimeFallsBackToUpdated | src/main.rs:134-139 | an Atom entry's time is `published` when present and `updated` otherwise |
| Pipeline.SendTweets | src/main.rs:81-92 | when the title passes, `Tweet: <title>\n<link>` is printed and, with posting on, posted under the account; otherwise nothing happens |
| Pipeline.PostingDisabledOnlyPrints | src/main.rs:88-91 | with posting off, a passing entry is only printed, never posted |
| Pipeline.FilterTweetsRss | src/main.rs:97-123 | the item loop equals `RssTrace`: items in order; a missing or unreadable date stops the invocation; old items are skipped; a new item without title stops it; a missing link is `""` |
| Pipeline.FilterTweetsAtom | src/main.rs:125-151 | the entry loop equals `AtomTrace`: entries in order; old entries skipped; a new entry is posted with its first link, and one without links stops the invocation |
| Pipeline.ReportTime | src/main.rs:183-184 | the cutoff's clock time exists only when the cutoff fits the platform clock's signed 64-bit seconds and chrono's range; otherwise converting it panics |
| Pipeline.SendErrorTwitterDm | src/main.rs:178-193 | a cutoff that cannot be turned into a clock time panics before anything is written; otherwise the report `Feed: <name> at <cutoff time> UTC\n<error>` is written to standard error, with direct messages on it is also sent to the operator, and an undelivered message stops the invocation |
| Pipeline.PostTweetsForAccount | src/main.rs:153-176 | the feed loop equals `AccountTrace`: feeds in order, each announced, downloaded (failure stops the invocation), read by its type string, its entries walked or its reader error reported |
| Pipeline.FunctionHandler | src/main.rs:196-265 | the invocation equals `HandlerTrace`: one cutoff for all accounts, a missing region stops it, then the accounts in order |
| Pipeline.RssItemsInSourceOrder | src/main.rs:104 | processing items `xs + ys` is processing `xs` and then, unless stopped, `ys` |
| Pipeline.AtomEntriesInSourceOrder | src/main.rs:132 | processing entries `xs + ys` is processing `xs` and then, unless stopped, `ys` |
| Pipeline.FeedsInConfiguredOrder | src/main.rs:155 | processing feeds `xs + ys` of an account is processing `xs` and then, unless stopped, `ys` |
| Pipeline.OldRssItemSkipped | src/main.rs:113-120 | an item dated at or before the cutoff causes nothing, even without title or link |
| Pipeline.NewRssItemPosted | src/main.rs:113-119 | a new titled item that passes the filter is printed and posted as `title + "\n" + link`, with `""` for a missing link |
| Pipeline.NoNewAtomEntryNoEffect | src/main.rs:141-148 | a feed with no Atom entry newer than the cutoff causes nothing |
| Pipeline.NoNewRssItemNoEffect | src/main.rs:104-121 | a feed whose items all carry readable dates no newer than the cutoff causes nothing |
| Pipeline.AtomEntryActsOnlyIfRecent | src/main.rs:141 | an Atom entry dated after 1970, on an invocation at least an hour after 1970, can cause an effect only if it is less than one polling interval older than the invocation |
| Pipeline.UnknownFeedTypeIgnored | src/main.rs:160-172 | a feed typed neither `RSS` nor `ATOM` is announced and downloaded, then neither posted nor reported |
| Pipeline.MalformedFeedReported | src/main.rs:162-171 | a rejected document gives no post; when the cutoff has a clock time, exactly one report on standard error and at most one direct message; otherwise the banner and a panic |
| Pipeline.FetchFailureStopsAccount | src/main.rs:158 | a failed download ends the run: the feeds after it in the account are never processed |
| Pipeline.PostingDisabledPostsNothing | src/main.rs:89-91 | with posting off, a whole invocation posts no tweet |
| Pipeline.DeployedReportsOnlyToStderr | src/main.rs:183-191 | with the deployed switches, a report is only written to standard error and never sent, and the run goes on, unless the cutoff has no clock time, which panics |
| Pipeline.PreEpochInvocationReportPanics | src/main.rs:183 | an invocation dated before 1970, but more than an hour after the earliest `i64` instant, gives a cutoff of at least 2^63 seconds, so reporting a rejected document panics with no effect |
| Pipeline.AccountsShareCutoff | src/main.rs:199-257 | every account of an invocation gets the same cutoff, the invocation time cast to `u64`, minus 3600 |

## Left out

- HTTP fetching (`get_url_content`): the client, user agent and 10-second
  timeout are not modelled. A download is `World.fetch`, whose outcome is
  a failed request, a failed body read or the body text. A failed client
  build (`build()?` at src/main.rs:37) prints no error line, so it is
  folded into the failed body read (`BodyFailed`): the banner, then a panic.
- `World.fetch` is a function, so one URL fetched twice in one invocation
  yields the same result in the model. The real network need not.
- The `rss` and `atom_syndication` readers are `World.readRss` and
  `World.readAtom`, returning entries or an error message.
- chrono's two date parsers and two formatters are uninterpreted `World`
  fields. The formatters are `%Y-%m-%d %H:%M:%S` of the cutoff and the
  display of the trigger time. Only the choice between the parsers and the
  comparison of their results are modelled. `World.formatUtc` returns
  `None` for an instant chrono cannot represent; the exact bound of
  chrono's range is not modelled.
- `World.showTime` sees the trigger time in whole seconds. The program
  prints the full `DateTime` with its fractional seconds, which the model
  does not carry.
- Twitter: a `Tweet` effect is a post attempt. Its result is ignored, as in
  the program. Latitude, longitude and `display_location` are passed
  straight through to the library and are not modelled. A `DirectMessage`
  effect is a delivered message; `World.deliverDm` says whether the send
  succeeds.
- `World.deliverDm` is a function of the text alone. Two accounts sending
  the same report therefore get the same outcome in the model, while the
  real sends go through different tokens and may differ.
- Credentials (`include_str!`) and the two hard-coded accounts are not
  modelled. `FunctionHandler` takes the account list as input and walks it
  in order, where the program makes two consecutive calls.
- Async execution, tokio, the Lambda runtime and tracing setup are not
  modelled. What the runtime does after a panic is not modelled either;
  the model stops the invocation's effects there.
- Timing.Cutoff: requires the invocation time, cast to `u64`, to be at
  least 3600. The `u64` underflow of the program below that is not
  modelled.
