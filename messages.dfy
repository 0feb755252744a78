/**
 The two texts the bot writes: the post for a feed entry and the operator
 report for a feed that could not be parsed. Both put a newline between a
 header and a free-form tail; `BreakAtNewline` reads them back apart.
 */
module Messages {

  /** The post text: the entry title, a newline, the entry link. */
  function TweetText(title: string, link: string): string
  {
    title + "\n" + link
  }

  /** The operator report: feed name and time on the first line, the error
      text after the newline. */
  function ErrorText(feedName: string, datetime: string, error: string): string
  {
    "Feed: " + feedName + " at " + datetime + "\n" + error
  }

  /** The text before the first newline and the text after it; a text
      without a newline is all head. */
  function BreakAtNewline(s: string): (r: (string, string))
    ensures '\n' !in r.0
    ensures '\n' in s ==> s == r.0 + "\n" + r.1
    ensures '\n' !in s ==> r == (s, "")
    decreases |s|
  {
    if s == [] then ("", "")
    else if s[0] == '\n' then ("", s[1..])
    else
      var rest := BreakAtNewline(s[1..]);
      assert s == [s[0]] + s[1..];
      ([s[0]] + rest.0, rest.1)
  }

  /** A one-line head followed by a newline is recovered exactly, whatever
      the tail holds (further newlines included). */
  lemma {:induction false} BreakAfterHead(head: string, tail: string)
    requires '\n' !in head
    ensures BreakAtNewline(head + "\n" + tail) == (head, tail)
    decreases |head|
  {
    var s := head + "\n" + tail;
    if head == [] {
      assert s[1..] == tail;
    } else {
      assert s[1..] == head[1..] + "\n" + tail;
      BreakAfterHead(head[1..], tail);
      assert head == [head[0]] + head[1..];
    }
  }

  /** A post of a one-line title gives back the title and the link. */
  lemma TweetTextRoundTrip(title: string, link: string)
    requires '\n' !in title
    ensures BreakAtNewline(TweetText(title, link)) == (title, link)
  {
    BreakAfterHead(title, link);
  }

  /** A report on a one-line feed name and time gives back its header and
      the complete error text. */
  lemma ErrorTextRoundTrip(feedName: string, datetime: string, error: string)
    requires '\n' !in feedName && '\n' !in datetime
    ensures BreakAtNewline(ErrorText(feedName, datetime, error))
         == ("Feed: " + feedName + " at " + datetime, error)
  {
    var head := "Feed: " + feedName + " at " + datetime;
    assert ErrorText(feedName, datetime, error) == head + "\n" + error;
    BreakAfterHead(head, error);
  }
}
