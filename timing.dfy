/**
 Timestamps, the invocation cutoff and the novelty test.

 Entry times come out of the date parsers as signed 64-bit seconds since the
 Unix epoch and are cast with `as u64` before they are compared with the
 cutoff, which is itself an unsigned 64-bit value.
 */
module Timing {
  import opened Wrappers
  import Text

  /** The polling interval of the scheduled trigger, in seconds. */
  const CRON_TIME: nat := 3600

  const I64_MIN: int := -0x8000_0000_0000_0000
  const I64_BOUND: int := 0x8000_0000_0000_0000
  const U64_MODULUS: int := 0x1_0000_0000_0000_0000

  /** Seconds since the epoch as the date library returns them (`i64`). */
  type Seconds = t: int | I64_MIN <= t < I64_BOUND

  /** `t as u64`: the two's-complement bits of `t` read as unsigned. */
  function AsU64(t: Seconds): (r: nat)
    ensures r < U64_MODULUS
    ensures t >= 0 ==> r == t
    ensures t < 0 ==> r == t + U64_MODULUS
  {
    t % U64_MODULUS
  }

  /** The account cutoff: the invocation time, cast to `u64`, minus the
      polling interval. The subtraction is only defined when it does not
      underflow. */
  function Cutoff(eventTime: Seconds): (cutoff: nat)
    requires AsU64(eventTime) >= CRON_TIME
    ensures cutoff + CRON_TIME == AsU64(eventTime)
    ensures cutoff < U64_MODULUS
    ensures eventTime >= 0 ==> cutoff == eventTime - CRON_TIME
  {
    AsU64(eventTime) - CRON_TIME
  }

  /** An entry is new when its cast timestamp is strictly after the cutoff. */
  predicate IsNew(entryTime: Seconds, cutoff: nat)
  {
    AsU64(entryTime) > cutoff
  }

  /** For entries dated after the epoch, novelty is plain strict comparison:
      an entry stamped exactly at the cutoff is old. */
  lemma NoveltyIsStrict(entryTime: Seconds, cutoff: nat)
    requires entryTime >= 0
    ensures IsNew(entryTime, cutoff) <==> entryTime > cutoff
  {
  }

  /** A negative timestamp wraps to a huge unsigned value, so an entry dated
      before 1970 is new against every cutoff below 2^63, that is, on every
      invocation dated after 1970. */
  lemma PreEpochEntryAlwaysNew(entryTime: Seconds, cutoff: nat)
    requires entryTime < 0 && cutoff < I64_BOUND
    ensures IsNew(entryTime, cutoff)
  {
  }

  /** With an invocation at least one polling interval after the epoch, a
      post-epoch entry counts as new exactly when it is younger than one
      polling interval. */
  lemma NewWithinLastInterval(eventTime: Seconds, entryTime: Seconds)
    requires eventTime >= CRON_TIME && entryTime >= 0
    ensures IsNew(entryTime, Cutoff(eventTime)) <==> eventTime - entryTime < CRON_TIME
  {
  }

  /** An Atom entry is dated by its `published` element and, when that is
      absent, by its mandatory `updated` element. */
  function AtomEntryTime(published: Option<Seconds>, updated: Seconds): (t: Seconds)
  {
    published.GetOr(updated)
  }

  /** Which chrono parser an RSS `pubDate` string is handed to. */
  datatype DateFormat = Rfc3339 | Rfc2822

  /** A `pubDate` holding a `Z` anywhere goes to the RFC 3339 parser; every
      other string goes to the RFC 2822 parser. */
  function RssDateFormat(pubDate: string): DateFormat
  {
    if Text.Contains(pubDate, "Z") then Rfc3339 else Rfc2822
  }

  /** The format test looks at single characters: it picks RFC 3339 iff some
      character of the string is `Z`, wherever it stands. */
  lemma {:induction false} RssDateFormatByCharacter(pubDate: string)
    ensures RssDateFormat(pubDate) == Rfc3339 <==> 'Z' in pubDate
    decreases |pubDate|
  {
    if pubDate != [] {
      RssDateFormatByCharacter(pubDate[1..]);
      assert pubDate == [pubDate[0]] + pubDate[1..];
      assert pubDate[..1] == "Z" <==> pubDate[0] == 'Z';
    }
  }

  /** The Atom time is one of the entry's two annotations: `published`
      whenever it exists, `updated` only in its absence. */
  lemma AtomTimeFallsBackToUpdated(published: Option<Seconds>, updated: Seconds)
    ensures published.Some? ==> AtomEntryTime(published, updated) == published.value
    ensures published.None? ==> AtomEntryTime(published, updated) == updated
  {
  }
}
