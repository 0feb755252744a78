/**
 One invocation of the bot: for every configured account, walk its feeds in
 order; download each feed, hand it to the RSS or Atom reader according to
 its type string, and walk the entries in document order, posting every new
 entry whose title passes the feed's filter. A feed the reader rejects is
 reported to the operator instead.

 What the invocation does to the outside world is an ordered log of
 `Effect`s. Each imperative method returns the effects it caused and is
 proved equal to a specification function; an `unwrap` that fails in the
 program is a `Trace` whose `finished` flag is false, after which nothing
 else happens in the invocation.
 */
module Pipeline {
  import opened Wrappers
  import opened Timing
  import opened Messages
  import opened TitleFilter
  import Text

  const TYPE_RSS: string := "RSS"
  const TYPE_ATOM: string := "ATOM"
  /** The operator account that receives error reports. */
  const MY_TWITTER_ID: nat := 123456789
  const ALLOW_TWEETS: bool := true
  const ALLOW_ERROR_DM: bool := false

  /** The deployment switches: post tweets at all, report errors by direct
      message. */
  datatype Switches = Switches(allowTweets: bool, allowErrorDm: bool)

  const DEPLOYED_SWITCHES: Switches := Switches(ALLOW_TWEETS, ALLOW_ERROR_DM)

  datatype Feed = Feed(name: string, url: string, feedType: string, filter: string)

  /** An account as configured, before the invocation time is known. */
  datatype AccountConfig = AccountConfig(name: string, feeds: seq<Feed>)

  /** An account during an invocation; `cutoff` is `timestamp_lambda`. */
  datatype Account = Account(name: string, feeds: seq<Feed>, cutoff: nat)

  /** An RSS item as the `rss` crate reads it: all three fields optional. */
  datatype RssItem = RssItem(pubDate: Option<string>, title: Option<string>, link: Option<string>)

  /** An Atom entry as `atom_syndication` reads it: `updated` and the title
      are mandatory, `published` is optional, there may be any number of links. */
  datatype AtomEntry = AtomEntry(published: Option<Seconds>, updated: Seconds, title: string, links: seq<string>)

  /** The outcome of a download: the request failed, reading the body failed,
      or the body text. */
  datatype Download = RequestFailed | BodyFailed | Body(content: string)

  /** The outcome of reading a document: its entries, or the reader's error
      message. */
  datatype Parsed<T> = Parsed(entries: seq<T>) | Malformed(error: string)

  /** Everything the invocation learns from or hands to code outside the
      model: the network, the two feed readers, the two date parsers, the
      two date formatters, and whether a direct message is delivered.
      `formatUtc` is `None` where chrono cannot represent the instant and
      its conversion from `SystemTime` panics. */
  datatype World = World(
    fetch: string -> Download,
    readRss: string -> Parsed<RssItem>,
    readAtom: string -> Parsed<AtomEntry>,
    parseRfc3339: string -> Option<Seconds>,
    parseRfc2822: string -> Option<Seconds>,
    formatUtc: nat -> Option<string>,
    showTime: Seconds -> string,
    deliverDm: string -> bool)

  /** What the outside world sees: a line on standard output or standard
      error, a posted tweet, a direct message to the operator. */
  datatype Effect =
    | Stdout(line: string)
    | Stderr(line: string)
    | Tweet(account: string, text: string)
    | DirectMessage(recipient: nat, text: string)

  /** The effects of a run, and whether it got to its end (false: an
      `unwrap` failed and the invocation stopped there). */
  datatype Trace = Trace(effects: seq<Effect>, finished: bool)

  const Silent: Trace := Trace([], true)
  const Panic: Trace := Trace([], false)

  /** Run `a`, then `b` if `a` got to its end. */
  function Then(a: Trace, b: Trace): (r: Trace)
    ensures a.finished ==> r.effects == a.effects + b.effects && r.finished == b.finished
    ensures !a.finished ==> r == a
  {
    if a.finished then Trace(a.effects + b.effects, b.finished) else a
  }

  /** Run the steps one after the other, stopping at the first that stops. */
  function Sequence(steps: seq<Trace>): Trace
    decreases |steps|
  {
    if steps == [] then Silent else Then(Sequence(steps[..|steps| - 1]), steps[|steps| - 1])
  }

  lemma ThenAssociative(a: Trace, b: Trace, c: Trace)
    ensures Then(Then(a, b), c) == Then(a, Then(b, c))
  {
  }

  /** Running two lists of steps back to back is running their concatenation. */
  lemma {:induction false} SequenceAppend(xs: seq<Trace>, ys: seq<Trace>)
    ensures Sequence(xs + ys) == Then(Sequence(xs), Sequence(ys))
    decreases |ys|
  {
    if ys == [] {
      assert xs + ys == xs;
    } else {
      var last := ys[|ys| - 1];
      assert (xs + ys)[..|xs + ys| - 1] == xs + ys[..|ys| - 1];
      SequenceAppend(xs, ys[..|ys| - 1]);
      ThenAssociative(Sequence(xs), Sequence(ys[..|ys| - 1]), last);
    }
  }

  /** One more step of a loop that has not stopped. */
  lemma SequenceStep(steps: seq<Trace>, k: nat)
    requires k < |steps|
    ensures Sequence(steps[..k + 1]) == Then(Sequence(steps[..k]), steps[k])
  {
    assert steps[..k + 1][..k] == steps[..k];
  }

  /** Once a step stops the run, the remaining steps have no effect. */
  lemma SequenceStopsAtPanic(steps: seq<Trace>, k: nat)
    requires k <= |steps| && !Sequence(steps[..k]).finished
    ensures Sequence(steps) == Sequence(steps[..k])
  {
    SequenceAppend(steps[..k], steps[k..]);
    assert steps[..k] + steps[k..] == steps;
  }

  /** A list of steps none of which does anything does nothing. */
  lemma {:induction false} SequenceOfSilent(steps: seq<Trace>)
    requires forall i :: 0 <= i < |steps| ==> steps[i] == Silent
    ensures Sequence(steps) == Silent
    decreases |steps|
  {
    if steps != [] {
      SequenceOfSilent(steps[..|steps| - 1]);
    }
  }

  /** The trace posts no tweet. */
  ghost predicate NoTweets(t: Trace)
  {
    forall i :: 0 <= i < |t.effects| ==> !t.effects[i].Tweet?
  }

  /** Steps that post no tweet, run in sequence, post no tweet. */
  lemma {:induction false} SequenceWithoutTweets(steps: seq<Trace>)
    requires forall i :: 0 <= i < |steps| ==> NoTweets(steps[i])
    ensures NoTweets(Sequence(steps))
    decreases |steps|
  {
    if steps != [] {
      SequenceWithoutTweets(steps[..|steps| - 1]);
    }
  }

  // ---------------------------------------------------------------------
  // send_tweets

  /** The effects of `send_tweets` for one new entry: when the title passes
      the filter, the post text is printed and, if posting is on, posted. */
  ghost function SendTweetsEffects(sw: Switches, account: Account, feed: Feed, title: string, link: string): seq<Effect>
  {
    if Passes(feed.filter, title) then
      var text := TweetText(title, link);
      [Stdout("Tweet: " + text)] + (if sw.allowTweets then [Tweet(account.name, text)] else [])
    else []
  }

  method SendTweets(sw: Switches, account: Account, feed: Feed, title: string, link: string) returns (effects: seq<Effect>)
    ensures effects == SendTweetsEffects(sw, account, feed, title, link)
  {
    var sendTweet := FilterTitle(feed.filter, title);
    effects := [];
    if sendTweet {
      var text := TweetText(title, link);
      effects := effects + [Stdout("Tweet: " + text)];
      if sw.allowTweets {
        effects := effects + [Tweet(account.name, text)];
      }
    }
  }

  /** With posting switched off nothing is posted, but a passing entry's
      text is still printed. */
  lemma PostingDisabledOnlyPrints(sw: Switches, account: Account, feed: Feed, title: string, link: string)
    requires !sw.allowTweets
    ensures SendTweetsEffects(sw, account, feed, title, link)
         == if Passes(feed.filter, title) then [Stdout("Tweet: " + TweetText(title, link))] else []
  {
  }

  // ---------------------------------------------------------------------
  // filter_tweets_rss

  /** The RSS `pubDate` as seconds, read by the parser its format test picks. */
  function RssTimestamp(world: World, pubDate: string): Option<Seconds>
  {
    match RssDateFormat(pubDate)
    case Rfc3339 => world.parseRfc3339(pubDate)
    case Rfc2822 => world.parseRfc2822(pubDate)
  }

  /** One RSS item: a missing or unreadable date stops the invocation; an
      old item is skipped; a new item needs a title, and a missing link
      becomes the empty string. */
  ghost function RssItemTrace(sw: Switches, world: World, account: Account, feed: Feed, item: RssItem): Trace
  {
    match item.pubDate
    case None => Panic
    case Some(date) =>
      match RssTimestamp(world, date)
      case None => Panic
      case Some(t) =>
        if !IsNew(t, account.cutoff) then Silent
        else
          match item.title
          case None => Panic
          case Some(title) => Trace(SendTweetsEffects(sw, account, feed, title, item.link.GetOr("")), true)
  }

  ghost function RssSteps(sw: Switches, world: World, account: Account, feed: Feed, items: seq<RssItem>): (steps: seq<Trace>)
    ensures |steps| == |items|
    ensures forall i :: 0 <= i < |items| ==> steps[i] == RssItemTrace(sw, world, account, feed, items[i])
  {
    seq(|items|, i requires 0 <= i < |items| => RssItemTrace(sw, world, account, feed, items[i]))
  }

  ghost function RssTrace(sw: Switches, world: World, account: Account, feed: Feed, items: seq<RssItem>): Trace
  {
    Sequence(RssSteps(sw, world, account, feed, items))
  }

  method FilterTweetsRss(sw: Switches, world: World, account: Account, items: seq<RssItem>, feed: Feed) returns (trace: Trace)
    ensures trace == RssTrace(sw, world, account, feed, items)
  {
    var timestamp := account.cutoff;
    ghost var steps := RssSteps(sw, world, account, feed, items);
    trace := Silent;
    var k := 0;
    while k < |items| && trace.finished
      invariant 0 <= k <= |items|
      invariant trace == Sequence(steps[..k])
    {
      var item := items[k];
      var step: Trace;
      if item.pubDate.None? {
        step := Panic;
      } else {
        var itemTimeString := item.pubDate.value;
        var itemTimestamp: Option<Seconds>;
        if Text.Contains(itemTimeString, "Z") {
          itemTimestamp := world.parseRfc3339(itemTimeString);
        } else {
          itemTimestamp := world.parseRfc2822(itemTimeString);
        }
        if itemTimestamp.None? {
          step := Panic;
        } else if AsU64(itemTimestamp.value) > timestamp {
          if item.title.None? {
            step := Panic;
          } else {
            var effects := SendTweets(sw, account, feed, item.title.value, item.link.GetOr(""));
            step := Trace(effects, true);
          }
        } else {
          step := Silent;
        }
      }
      assert step == steps[k];
      SequenceStep(steps, k);
      trace := Trace(trace.effects + step.effects, step.finished);
      k := k + 1;
    }
    if k < |items| {
      SequenceStopsAtPanic(steps, k);
    } else {
      assert steps[..k] == steps;
    }
  }

  // ---------------------------------------------------------------------
  // filter_tweets_atom

  /** One Atom entry: an old entry is skipped; a new entry is posted with
      its first link, and an entry without links stops the invocation. */
  ghost function AtomEntryTrace(sw: Switches, account: Account, feed: Feed, entry: AtomEntry): Trace
  {
    if !IsNew(AtomEntryTime(entry.published, entry.updated), account.cutoff) then Silent
    else if entry.links == [] then Panic
    else Trace(SendTweetsEffects(sw, account, feed, entry.title, entry.links[0]), true)
  }

  ghost function AtomSteps(sw: Switches, account: Account, feed: Feed, entries: seq<AtomEntry>): (steps: seq<Trace>)
    ensures |steps| == |entries|
    ensures forall i :: 0 <= i < |entries| ==> steps[i] == AtomEntryTrace(sw, account, feed, entries[i])
  {
    seq(|entries|, i requires 0 <= i < |entries| => AtomEntryTrace(sw, account, feed, entries[i]))
  }

  ghost function AtomTrace(sw: Switches, account: Account, feed: Feed, entries: seq<AtomEntry>): Trace
  {
    Sequence(AtomSteps(sw, account, feed, entries))
  }

  method FilterTweetsAtom(sw: Switches, account: Account, entries: seq<AtomEntry>, feed: Feed) returns (trace: Trace)
    ensures trace == AtomTrace(sw, account, feed, entries)
  {
    var timestamp := account.cutoff;
    ghost var steps := AtomSteps(sw, account, feed, entries);
    trace := Silent;
    var k := 0;
    while k < |entries| && trace.finished
      invariant 0 <= k <= |entries|
      invariant trace == Sequence(steps[..k])
    {
      var entry := entries[k];
      var entryTimestamp: Seconds;
      if entry.published.None? {
        entryTimestamp := entry.updated;
      } else {
        entryTimestamp := entry.published.value;
      }
      var step: Trace;
      if AsU64(entryTimestamp) > timestamp {
        if entry.links == [] {
          step := Panic;
        } else {
          var effects := SendTweets(sw, account, feed, entry.title, entry.links[0]);
          step := Trace(effects, true);
        }
      } else {
        step := Silent;
      }
      assert step == steps[k];
      SequenceStep(steps, k);
      trace := Trace(trace.effects + step.effects, step.finished);
      k := k + 1;
    }
    if k < |entries| {
      SequenceStopsAtPanic(steps, k);
    } else {
      assert steps[..k] == steps;
    }
  }

  // ---------------------------------------------------------------------
  // send_error_twitter_dm

  /** The report names the account's cutoff time, in UTC. `None` is a
      panic: adding a cutoff beyond the signed 64-bit seconds of the
      platform clock to `UNIX_EPOCH` overflows, and chrono's conversion
      fails outside its own range. */
  function ReportTime(world: World, account: Account): (r: Option<string>)
    ensures account.cutoff >= I64_BOUND ==> r.None?
    ensures account.cutoff < I64_BOUND ==> (r.Some? <==> world.formatUtc(account.cutoff).Some?)
    ensures r.Some? ==> r.value == world.formatUtc(account.cutoff).value + " UTC"
  {
    if account.cutoff >= I64_BOUND then None
    else match world.formatUtc(account.cutoff)
      case None => None
      case Some(datetime) => Some(datetime + " UTC")
  }

  /** The report is always written to standard error; with direct messages
      on it is also sent to the operator, and an undelivered message stops
      the invocation. */
  ghost function ErrorReportTrace(sw: Switches, world: World, account: Account, feed: Feed, error: string): Trace
  {
    if ReportTime(world, account).None? then Panic
    else
    var text := ErrorText(feed.name, ReportTime(world, account).value, error);
    if !sw.allowErrorDm then Trace([Stderr(text)], true)
    else if world.deliverDm(text) then Trace([Stderr(text), DirectMessage(MY_TWITTER_ID, text)], true)
    else Trace([Stderr(text)], false)
  }

  method SendErrorTwitterDm(sw: Switches, world: World, account: Account, feed: Feed, error: string) returns (trace: Trace)
    ensures trace == ErrorReportTrace(sw, world, account, feed, error)
  {
    if account.cutoff >= I64_BOUND {
      return Panic;
    }
    var formatted := world.formatUtc(account.cutoff);
    if formatted.None? {
      return Panic;
    }
    var datetime := formatted.value + " UTC";
    var text := ErrorText(feed.name, datetime, error);
    trace := Trace([Stderr(text)], true);
    if sw.allowErrorDm {
      if world.deliverDm(text) {
        trace := Trace(trace.effects + [DirectMessage(MY_TWITTER_ID, text)], true);
      } else {
        trace := Trace(trace.effects, false);
      }
    }
  }

  // ---------------------------------------------------------------------
  // post_tweets_for_account

  /** The line printed when a feed is started. */
  function FeedBanner(feed: Feed): Effect
  {
    Stdout("current Feed: " + feed.name)
  }

  /** The line `get_url_content` prints when the request fails. */
  function FetchFailureLine(feed: Feed): Effect
  {
    Stderr("Error in fn 'get_url_content'  for Feed " + feed.url)
  }

  /** Prefix a trace with effects that always happen. */
  function Emit(effects: seq<Effect>, rest: Trace): Trace
  {
    Trace(effects + rest.effects, rest.finished)
  }

  /** One feed: announce it, download it (a failed download stops the
      invocation), then read it as RSS or Atom by its type string; a
      rejected document is reported, an unknown type is ignored. */
  ghost function FeedTrace(sw: Switches, world: World, account: Account, feed: Feed): Trace
  {
    var banner := [FeedBanner(feed)];
    match world.fetch(feed.url)
    case RequestFailed => Trace(banner + [FetchFailureLine(feed)], false)
    case BodyFailed => Trace(banner, false)
    case Body(content) =>
      if feed.feedType == TYPE_RSS then
        match world.readRss(content)
        case Parsed(items) => Emit(banner, RssTrace(sw, world, account, feed, items))
        case Malformed(error) => Emit(banner, ErrorReportTrace(sw, world, account, feed, error))
      else if feed.feedType == TYPE_ATOM then
        match world.readAtom(content)
        case Parsed(entries) => Emit(banner, AtomTrace(sw, account, feed, entries))
        case Malformed(error) => Emit(banner, ErrorReportTrace(sw, world, account, feed, error))
      else Trace(banner, true)
  }

  ghost function FeedSteps(sw: Switches, world: World, account: Account, feeds: seq<Feed>): (steps: seq<Trace>)
    ensures |steps| == |feeds|
    ensures forall i :: 0 <= i < |feeds| ==> steps[i] == FeedTrace(sw, world, account, feeds[i])
  {
    seq(|feeds|, i requires 0 <= i < |feeds| => FeedTrace(sw, world, account, feeds[i]))
  }

  ghost function AccountTrace(sw: Switches, world: World, account: Account): Trace
  {
    Sequence(FeedSteps(sw, world, account, account.feeds))
  }

  method PostTweetsForAccount(sw: Switches, world: World, account: Account) returns (trace: Trace)
    ensures trace == AccountTrace(sw, world, account)
  {
    var feeds := account.feeds;
    ghost var steps := FeedSteps(sw, world, account, feeds);
    trace := Silent;
    var k := 0;
    while k < |feeds| && trace.finished
      invariant 0 <= k <= |feeds|
      invariant trace == Sequence(steps[..k])
    {
      var feed := feeds[k];
      var step: Trace;
      var banner := [FeedBanner(feed)];
      var download := world.fetch(feed.url);
      if download.RequestFailed? {
        step := Trace(banner + [FetchFailureLine(feed)], false);
      } else if download.BodyFailed? {
        step := Trace(banner, false);
      } else if feed.feedType == TYPE_RSS {
        var rest: Trace;
        match world.readRss(download.content) {
          case Parsed(items) =>
            rest := FilterTweetsRss(sw, world, account, items, feed);
          case Malformed(error) =>
            rest := SendErrorTwitterDm(sw, world, account, feed, error);
        }
        step := Emit(banner, rest);
      } else if feed.feedType == TYPE_ATOM {
        var rest: Trace;
        match world.readAtom(download.content) {
          case Parsed(entries) =>
            rest := FilterTweetsAtom(sw, account, entries, feed);
          case Malformed(error) =>
            rest := SendErrorTwitterDm(sw, world, account, feed, error);
        }
        step := Emit(banner, rest);
      } else {
        step := Trace(banner, true);
      }
      assert step == steps[k];
      SequenceStep(steps, k);
      trace := Trace(trace.effects + step.effects, step.finished);
      k := k + 1;
    }
    if k < |feeds| {
      SequenceStopsAtPanic(steps, k);
    } else {
      assert steps[..k] == steps;
    }
  }

  // ---------------------------------------------------------------------
  // function_handler

  /** Every configured account, given the one cutoff of this invocation. */
  function WithCutoff(configs: seq<AccountConfig>, cutoff: nat): (accounts: seq<Account>)
    ensures |accounts| == |configs|
    ensures forall i :: 0 <= i < |configs| ==>
      accounts[i] == Account(configs[i].name, configs[i].feeds, cutoff)
  {
    seq(|configs|, i requires 0 <= i < |configs| => Account(configs[i].name, configs[i].feeds, cutoff))
  }

  ghost function AccountSteps(sw: Switches, world: World, accounts: seq<Account>): (steps: seq<Trace>)
    ensures |steps| == |accounts|
    ensures forall i :: 0 <= i < |accounts| ==> steps[i] == AccountTrace(sw, world, accounts[i])
  {
    seq(|accounts|, i requires 0 <= i < |accounts| => AccountTrace(sw, world, accounts[i]))
  }

  /** The invocation: compute the cutoff, print the region (a missing region
      stops the invocation) and the time, then run the accounts in order. */
  ghost function HandlerTrace(sw: Switches, world: World, eventTime: Seconds, region: Option<string>, configs: seq<AccountConfig>): Trace
    requires AsU64(eventTime) >= CRON_TIME
  {
    match region
    case None => Panic
    case Some(r) =>
      Emit([Stdout("Region: " + r), Stdout("Time: " + world.showTime(eventTime))],
           Sequence(AccountSteps(sw, world, WithCutoff(configs, Cutoff(eventTime)))))
  }

  method FunctionHandler(sw: Switches, world: World, eventTime: Seconds, region: Option<string>, configs: seq<AccountConfig>)
    returns (trace: Trace)
    requires AsU64(eventTime) >= CRON_TIME
    ensures trace == HandlerTrace(sw, world, eventTime, region, configs)
  {
    var timestamp := AsU64(eventTime) - CRON_TIME;
    if region.None? {
      return Panic;
    }
    var header := [Stdout("Region: " + region.value), Stdout("Time: " + world.showTime(eventTime))];
    ghost var steps := AccountSteps(sw, world, WithCutoff(configs, Cutoff(eventTime)));
    var run := Silent;
    var k := 0;
    while k < |configs| && run.finished
      invariant 0 <= k <= |configs|
      invariant run == Sequence(steps[..k])
    {
      var account := Account(configs[k].name, configs[k].feeds, timestamp);
      var result := PostTweetsForAccount(sw, world, account);
      SequenceStep(steps, k);
      run := Trace(run.effects + result.effects, result.finished);
      k := k + 1;
    }
    if k < |configs| {
      SequenceStopsAtPanic(steps, k);
    } else {
      assert steps[..k] == steps;
    }
    trace := Emit(header, run);
  }

  // ---------------------------------------------------------------------
  // Properties of the pipeline

  /** Items are processed in document order: the items `xs + ys` are the
      items `xs` and then, if nothing stopped the invocation, `ys`. */
  lemma RssItemsInSourceOrder(sw: Switches, world: World, account: Account, feed: Feed, xs: seq<RssItem>, ys: seq<RssItem>)
    ensures RssTrace(sw, world, account, feed, xs + ys)
         == Then(RssTrace(sw, world, account, feed, xs), RssTrace(sw, world, account, feed, ys))
  {
    var steps := RssSteps(sw, world, account, feed, xs + ys);
    assert steps == RssSteps(sw, world, account, feed, xs) + RssSteps(sw, world, account, feed, ys);
    SequenceAppend(RssSteps(sw, world, account, feed, xs), RssSteps(sw, world, account, feed, ys));
  }

  /** Atom entries are processed in document order. */
  lemma AtomEntriesInSourceOrder(sw: Switches, account: Account, feed: Feed, xs: seq<AtomEntry>, ys: seq<AtomEntry>)
    ensures AtomTrace(sw, account, feed, xs + ys)
         == Then(AtomTrace(sw, account, feed, xs), AtomTrace(sw, account, feed, ys))
  {
    var steps := AtomSteps(sw, account, feed, xs + ys);
    assert steps == AtomSteps(sw, account, feed, xs) + AtomSteps(sw, account, feed, ys);
    SequenceAppend(AtomSteps(sw, account, feed, xs), AtomSteps(sw, account, feed, ys));
  }

  /** Feeds are processed in configured order, all with the account's cutoff. */
  lemma FeedsInConfiguredOrder(sw: Switches, world: World, name: string, cutoff: nat, xs: seq<Feed>, ys: seq<Feed>)
    ensures AccountTrace(sw, world, Account(name, xs + ys, cutoff))
         == Then(AccountTrace(sw, world, Account(name, xs, cutoff)), AccountTrace(sw, world, Account(name, ys, cutoff)))
  {
    var a, ax, ay := Account(name, xs + ys, cutoff), Account(name, xs, cutoff), Account(name, ys, cutoff);
    forall i | 0 <= i < |xs| ensures FeedTrace(sw, world, a, xs[i]) == FeedTrace(sw, world, ax, xs[i]) {
      FeedTraceUsesNameAndCutoff(sw, world, a, ax, xs[i]);
    }
    forall i | 0 <= i < |ys| ensures FeedTrace(sw, world, a, ys[i]) == FeedTrace(sw, world, ay, ys[i]) {
      FeedTraceUsesNameAndCutoff(sw, world, a, ay, ys[i]);
    }
    assert FeedSteps(sw, world, a, a.feeds) == FeedSteps(sw, world, ax, xs) + FeedSteps(sw, world, ay, ys);
    SequenceAppend(FeedSteps(sw, world, ax, xs), FeedSteps(sw, world, ay, ys));
  }

  /** A feed is processed the same way whatever other feeds its account has. */
  lemma FeedTraceUsesNameAndCutoff(sw: Switches, world: World, a: Account, b: Account, feed: Feed)
    requires a.name == b.name && a.cutoff == b.cutoff
    ensures FeedTrace(sw, world, a, feed) == FeedTrace(sw, world, b, feed)
  {
    forall items: seq<RssItem> ensures RssTrace(sw, world, a, feed, items) == RssTrace(sw, world, b, feed, items) {
      assert RssSteps(sw, world, a, feed, items) == RssSteps(sw, world, b, feed, items);
    }
    forall entries: seq<AtomEntry> ensures AtomTrace(sw, a, feed, entries) == AtomTrace(sw, b, feed, entries) {
      assert AtomSteps(sw, a, feed, entries) == AtomSteps(sw, b, feed, entries);
    }
  }

  /** An RSS item dated at or before the cutoff is skipped without looking
      at its title or link, so a missing title does no harm there. */
  lemma OldRssItemSkipped(sw: Switches, world: World, account: Account, feed: Feed, item: RssItem)
    requires item.pubDate.Some? && RssTimestamp(world, item.pubDate.value).Some?
    requires !IsNew(RssTimestamp(world, item.pubDate.value).value, account.cutoff)
    ensures RssItemTrace(sw, world, account, feed, item) == Silent
  {
  }

  /** A new RSS item with a title that passes the filter is printed and
      posted as its title, a newline and its link, or the empty string when
      the item has no link. */
  lemma NewRssItemPosted(sw: Switches, world: World, account: Account, feed: Feed, item: RssItem, title: string)
    requires item.pubDate.Some? && RssTimestamp(world, item.pubDate.value).Some?
    requires IsNew(RssTimestamp(world, item.pubDate.value).value, account.cutoff)
    requires item.title == Some(title) && Passes(feed.filter, title) && sw.allowTweets
    ensures item.link.None? ==>
      RssItemTrace(sw, world, account, feed, item).effects
        == [Stdout("Tweet: " + title + "\n"), Tweet(account.name, title + "\n")]
    ensures item.link.Some? ==>
      RssItemTrace(sw, world, account, feed, item).effects
        == [Stdout("Tweet: " + title + "\n" + item.link.value), Tweet(account.name, title + "\n" + item.link.value)]
  {
    var link := item.link.GetOr("");
    var text := TweetText(title, link);
    assert "Tweet: " + text == "Tweet: " + title + "\n" + link;
    if item.link.None? {
      assert title + "\n" + link == title + "\n";
      assert "Tweet: " + title + "\n" + link == "Tweet: " + title + "\n";
    }
    assert RssItemTrace(sw, world, account, feed, item).effects == [Stdout("Tweet: " + text), Tweet(account.name, text)];
  }

  /** A feed none of whose Atom entries is newer than the cutoff does nothing. */
  lemma {:induction false} NoNewAtomEntryNoEffect(sw: Switches, account: Account, feed: Feed, entries: seq<AtomEntry>)
    requires forall i :: 0 <= i < |entries| ==>
      !IsNew(AtomEntryTime(entries[i].published, entries[i].updated), account.cutoff)
    ensures AtomTrace(sw, account, feed, entries) == Silent
  {
    SequenceOfSilent(AtomSteps(sw, account, feed, entries));
  }

  /** An RSS feed whose every item has a readable date no newer than the
      cutoff does nothing. */
  lemma {:induction false} NoNewRssItemNoEffect(sw: Switches, world: World, account: Account, feed: Feed, items: seq<RssItem>)
    requires forall i :: 0 <= i < |items| ==>
      items[i].pubDate.Some? && RssTimestamp(world, items[i].pubDate.value).Some? &&
      !IsNew(RssTimestamp(world, items[i].pubDate.value).value, account.cutoff)
    ensures RssTrace(sw, world, account, feed, items) == Silent
  {
    SequenceOfSilent(RssSteps(sw, world, account, feed, items));
  }

  /** For an entry dated after 1970 and an invocation at least an hour
      after 1970, only an entry younger than one polling interval, counted
      from the invocation time, can cause any effect. */
  lemma AtomEntryActsOnlyIfRecent(sw: Switches, eventTime: Seconds, name: string, feeds: seq<Feed>, feed: Feed, entry: AtomEntry)
    requires eventTime >= CRON_TIME && AtomEntryTime(entry.published, entry.updated) >= 0
    requires AtomEntryTrace(sw, Account(name, feeds, Cutoff(eventTime)), feed, entry) != Silent
    ensures eventTime - AtomEntryTime(entry.published, entry.updated) < CRON_TIME
  {
    NewWithinLastInterval(eventTime, AtomEntryTime(entry.published, entry.updated));
  }

  /** A feed whose type is neither `RSS` nor `ATOM` is announced, downloaded
      and then ignored: no post, no report. */
  lemma UnknownFeedTypeIgnored(sw: Switches, world: World, account: Account, feed: Feed)
    requires world.fetch(feed.url).Body?
    requires feed.feedType != TYPE_RSS && feed.feedType != TYPE_ATOM
    ensures FeedTrace(sw, world, account, feed) == Trace([FeedBanner(feed)], true)
  {
  }

  /** A document the reader rejects leads to exactly one report on standard
      error (and, with direct messages on, one message to the operator) and
      to no post. */
  lemma MalformedFeedReported(sw: Switches, world: World, account: Account, feed: Feed, error: string)
    requires world.fetch(feed.url).Body?
    requires || (feed.feedType == TYPE_RSS && world.readRss(world.fetch(feed.url).content) == Malformed(error))
             || (feed.feedType == TYPE_ATOM && world.readAtom(world.fetch(feed.url).content) == Malformed(error))
    ensures ReportTime(world, account).Some? ==>
      var text := ErrorText(feed.name, ReportTime(world, account).value, error);
      FeedTrace(sw, world, account, feed).effects ==
        [FeedBanner(feed), Stderr(text)] + (if sw.allowErrorDm && world.deliverDm(text) then [DirectMessage(MY_TWITTER_ID, text)] else [])
    ensures ReportTime(world, account).None? ==> FeedTrace(sw, world, account, feed) == Trace([FeedBanner(feed)], false)
    ensures NoTweets(FeedTrace(sw, world, account, feed))
    ensures !sw.allowErrorDm ==> (FeedTrace(sw, world, account, feed).finished <==> ReportTime(world, account).Some?)
  {
  }

  /** A failed download stops the invocation: the feeds after it are never
      processed. */
  lemma FetchFailureStopsAccount(sw: Switches, world: World, account: Account, xs: seq<Feed>, feed: Feed, ys: seq<Feed>)
    requires !world.fetch(feed.url).Body?
    ensures AccountTrace(sw, world, Account(account.name, xs + [feed] + ys, account.cutoff))
         == Then(AccountTrace(sw, world, Account(account.name, xs, account.cutoff)), Trace([FeedBanner(feed)] + (if world.fetch(feed.url).RequestFailed? then [FetchFailureLine(feed)] else []), false))
  {
    var n, c := account.name, account.cutoff;
    FeedsInConfiguredOrder(sw, world, n, c, xs + [feed], ys);
    FeedsInConfiguredOrder(sw, world, n, c, xs, [feed]);
    assert FeedSteps(sw, world, Account(n, [feed], c), [feed]) == [FeedTrace(sw, world, Account(n, [feed], c), feed)];
    assert Sequence([FeedTrace(sw, world, Account(n, [feed], c), feed)]) == Then(Silent, FeedTrace(sw, world, Account(n, [feed], c), feed));
  }

  /** Entry-level traces post nothing while posting is switched off. */
  lemma EntriesPostNothingWhenDisabled(sw: Switches, world: World, account: Account, feed: Feed)
    requires !sw.allowTweets
    ensures forall items: seq<RssItem> :: NoTweets(RssTrace(sw, world, account, feed, items))
    ensures forall entries: seq<AtomEntry> :: NoTweets(AtomTrace(sw, account, feed, entries))
  {
    forall items: seq<RssItem> ensures NoTweets(RssTrace(sw, world, account, feed, items)) {
      SequenceWithoutTweets(RssSteps(sw, world, account, feed, items));
    }
    forall entries: seq<AtomEntry> ensures NoTweets(AtomTrace(sw, account, feed, entries)) {
      SequenceWithoutTweets(AtomSteps(sw, account, feed, entries));
    }
  }

  /** With posting switched off, a whole invocation posts nothing. */
  lemma PostingDisabledPostsNothing(sw: Switches, world: World, eventTime: Seconds, region: Option<string>, configs: seq<AccountConfig>)
    requires AsU64(eventTime) >= CRON_TIME
    requires !sw.allowTweets
    ensures NoTweets(HandlerTrace(sw, world, eventTime, region, configs))
  {
    var accounts := WithCutoff(configs, Cutoff(eventTime));
    forall i | 0 <= i < |accounts| ensures NoTweets(AccountTrace(sw, world, accounts[i])) {
      var account := accounts[i];
      forall j | 0 <= j < |account.feeds| ensures NoTweets(FeedTrace(sw, world, account, account.feeds[j])) {
        EntriesPostNothingWhenDisabled(sw, world, account, account.feeds[j]);
      }
      SequenceWithoutTweets(FeedSteps(sw, world, account, account.feeds));
    }
    SequenceWithoutTweets(AccountSteps(sw, world, accounts));
  }

  /** The deployed switches post tweets and never send a direct message: a
      rejected document is only written to standard error. */
  lemma DeployedReportsOnlyToStderr(world: World, account: Account, feed: Feed, error: string)
    ensures ReportTime(world, account).Some? ==>
      ErrorReportTrace(DEPLOYED_SWITCHES, world, account, feed, error)
        == Trace([Stderr(ErrorText(feed.name, ReportTime(world, account).value, error))], true)
    ensures ReportTime(world, account).None? ==> ErrorReportTrace(DEPLOYED_SWITCHES, world, account, feed, error) == Panic
  {
  }

  /** An invocation dated before 1970 (but not within an hour of the
      earliest `i64` instant) wraps to a cutoff beyond the platform clock's
      range: the first rejected document then panics before anything about
      it is written. */
  lemma PreEpochInvocationReportPanics(sw: Switches, world: World, eventTime: Seconds, config: AccountConfig, feed: Feed, error: string)
    requires I64_MIN + CRON_TIME <= eventTime < 0
    ensures AsU64(eventTime) >= CRON_TIME
    ensures ErrorReportTrace(sw, world, Account(config.name, config.feeds, Cutoff(eventTime)), feed, error) == Panic
  {
    assert Cutoff(eventTime) >= I64_BOUND;
  }

  /** Every account of an invocation gets the same cutoff, the invocation
      time cast to `u64`, minus the polling interval. */
  lemma AccountsShareCutoff(configs: seq<AccountConfig>, eventTime: Seconds)
    requires AsU64(eventTime) >= CRON_TIME
    ensures forall i :: 0 <= i < |configs| ==>
      WithCutoff(configs, Cutoff(eventTime))[i].cutoff + CRON_TIME == AsU64(eventTime)
  {
  }
}
