/**
 The three string operations the title filter is built from, with the
 meaning they have in Rust's standard library:
 - `Contains(s, p)`: `str::contains` with a string pattern;
 - `DeleteAll(s, m)`: `str::replace(m, "")`, one left-to-right pass that
   removes every non-overlapping occurrence of `m`;
 - `Split(s, sep)`: `str::split` on one `char`, which always yields at least
   one piece.
 */
module Text {

  /** `p` occurs in `s` at some position (`str::contains`). */
  predicate Contains(s: string, p: string)
    decreases |s|
  {
    |p| <= |s| && (s[..|p|] == p || Contains(s[1..], p))
  }

  /** `p` occurs in `s` starting at index `i`. */
  ghost predicate OccursAt(s: string, p: string, i: int)
  {
    0 <= i && i + |p| <= |s| && s[i..i + |p|] == p
  }

  /** An occurrence at any index is found by the scan. */
  lemma {:induction false} OccursAtContains(s: string, p: string, i: int)
    requires OccursAt(s, p, i)
    ensures Contains(s, p)
    decreases i
  {
    if i > 0 {
      assert s[1..][i - 1..i - 1 + |p|] == s[i..i + |p|];
      OccursAtContains(s[1..], p, i - 1);
    }
  }

  /** Whatever the scan finds occurs at some index. */
  lemma {:induction false} ContainsOccurs(s: string, p: string)
    requires Contains(s, p)
    ensures exists i :: OccursAt(s, p, i)
    decreases |s|
  {
    if s[..|p|] == p {
      assert OccursAt(s, p, 0);
    } else {
      ContainsOccurs(s[1..], p);
      var i :| OccursAt(s[1..], p, i);
      assert s[i + 1..i + 1 + |p|] == s[1..][i..i + |p|];
      assert OccursAt(s, p, i + 1);
    }
  }

  /** The scan `Contains` agrees with the textbook definition of a substring. */
  lemma ContainsIff(s: string, p: string)
    ensures Contains(s, p) <==> exists i :: OccursAt(s, p, i)
  {
    if Contains(s, p) {
      ContainsOccurs(s, p);
    }
    if exists i :: OccursAt(s, p, i) {
      var i :| OccursAt(s, p, i);
      OccursAtContains(s, p, i);
    }
  }

  /** Every string contains the empty string. */
  lemma ContainsEmpty(s: string)
    ensures Contains(s, "")
  {
  }

  /** A string contains itself sitting between any two strings. */
  lemma {:induction false} ContainsInfix(a: string, p: string, b: string)
    ensures Contains(a + p + b, p)
    decreases |a|
  {
    var s := a + p + b;
    if a == [] {
      assert s[..|p|] == p;
    } else {
      assert s[1..] == a[1..] + p + b;
      ContainsInfix(a[1..], p, b);
    }
  }

  /** `str::replace(m, "")`: delete every occurrence of `m` found by one
      left-to-right scan; a match resumes the scan after it. */
  function DeleteAll(s: string, m: string): (r: string)
    requires m != ""
    ensures |r| <= |s|
    ensures r == s <==> !Contains(s, m)
    ensures forall x :: x in r ==> x in s
    decreases |s|
  {
    if |s| < |m| then s
    else if s[..|m|] == m then DeleteAll(s[|m|..], m)
    else
      var rest := DeleteAll(s[1..], m);
      assert [s[0]] + rest == s <==> rest == s[1..] by {
        if rest == s[1..] { assert s == [s[0]] + s[1..]; }
        if [s[0]] + rest == s { assert rest == ([s[0]] + rest)[1..]; }
      }
      [s[0]] + rest
  }

  /** `m` has no proper prefix that is also a suffix, so two occurrences of
      `m` can never overlap. Both filter markers have this shape. */
  ghost predicate Unbordered(m: string)
  {
    forall k :: 0 < k < |m| ==> m[k..] != m[..|m| - k]
  }

  /** An unbordered marker cannot start inside a non-empty text that does
      not contain it and run on into a following occurrence of itself. */
  lemma NoMatchBeforeMarker(a: string, m: string, b: string)
    requires m != "" && Unbordered(m)
    requires a != [] && !Contains(a, m)
    ensures (a + m + b)[..|m|] != m
  {
    var s := a + m + b;
    if |a| >= |m| {
      assert s[..|m|] == a[..|m|];
    } else {
      assert s[..|m|][|a|..] == m[..|m| - |a|];
      assert m[|a|..] != m[..|m| - |a|];
    }
  }

  /** Deleting around one occurrence of an unbordered marker: the text
      before it is kept as it is, the text after it is scanned on. */
  lemma {:induction false} DeleteAllAround(a: string, m: string, b: string)
    requires m != "" && Unbordered(m)
    requires !Contains(a, m)
    ensures DeleteAll(a + m + b, m) == a + DeleteAll(b, m)
    decreases |a|
  {
    var s := a + m + b;
    if a == [] {
      assert s[..|m|] == m;
      assert s[|m|..] == b;
    } else {
      NoMatchBeforeMarker(a, m, b);
      assert !Contains(a[1..], m);
      assert s[1..] == a[1..] + m + b;
      DeleteAllAround(a[1..], m, b);
      calc {
        DeleteAll(s, m);
        [s[0]] + DeleteAll(s[1..], m);
        [a[0]] + (a[1..] + DeleteAll(b, m));
        { assert a == [a[0]] + a[1..]; }
        a + DeleteAll(b, m);
      }
    }
  }

  /** `sep` is not part of `m`, so `str::replace` works field by field:
      no occurrence of `m` can span a separator. */
  lemma {:induction false} DeleteAllAcrossSeparator(a: string, sep: char, b: string, m: string)
    requires m != "" && sep !in m
    ensures DeleteAll(a + [sep] + b, m) == DeleteAll(a, m) + [sep] + DeleteAll(b, m)
    decreases |a|
  {
    var s := a + [sep] + b;
    if |s| < |m| {
    } else if |a| < |m| {
      assert s[..|m|][|a|] == sep;
      if a == [] {
        assert s[1..] == b;
      } else {
        assert s[1..] == a[1..] + [sep] + b;
        DeleteAllAcrossSeparator(a[1..], sep, b, m);
      }
    } else if a[..|m|] == m {
      assert s[..|m|] == m;
      assert s[|m|..] == a[|m|..] + [sep] + b;
      DeleteAllAcrossSeparator(a[|m|..], sep, b, m);
    } else {
      assert s[..|m|] == a[..|m|];
      assert s[1..] == a[1..] + [sep] + b;
      DeleteAllAcrossSeparator(a[1..], sep, b, m);
    }
  }

  /** `str::split(sep)`: the pieces between separators, empty ones included. */
  function Split(s: string, sep: char): (pieces: seq<string>)
    ensures |pieces| >= 1
    ensures forall i :: 0 <= i < |pieces| ==> sep !in pieces[i]
    decreases |s|
  {
    if s == [] then [[]]
    else
      var rest := Split(s[1..], sep);
      if s[0] == sep then [[]] + rest
      else [[s[0]] + rest[0]] + rest[1..]
  }

  /** The pieces joined back together with `sep` between neighbours. */
  function JoinWith(pieces: seq<string>, sep: string): string
    decreases |pieces|
  {
    if |pieces| == 0 then []
    else if |pieces| == 1 then pieces[0]
    else pieces[0] + sep + JoinWith(pieces[1..], sep)
  }

  /** Splitting loses nothing: joining the pieces gives the string back. */
  lemma {:induction false} JoinSplit(s: string, sep: char)
    ensures JoinWith(Split(s, sep), [sep]) == s
    decreases |s|
  {
    if s != [] {
      var rest := Split(s[1..], sep);
      JoinSplit(s[1..], sep);
      if s[0] == sep {
        assert s == [sep] + s[1..];
      } else if |rest| == 1 {
        assert s == [s[0]] + rest[0];
      } else {
        assert rest == [rest[0]] + rest[1..];
        assert JoinWith(rest, [sep]) == rest[0] + [sep] + JoinWith(rest[1..], [sep]);
        assert s == [s[0]] + s[1..];
      }
    }
  }

  /** Splitting at one separator splits the two sides independently. */
  lemma {:induction false} SplitAtSeparator(a: string, sep: char, b: string)
    ensures Split(a + [sep] + b, sep) == Split(a, sep) + Split(b, sep)
    decreases |a|
  {
    var s := a + [sep] + b;
    if a == [] {
      assert s[1..] == b;
    } else {
      assert s[1..] == a[1..] + [sep] + b;
      SplitAtSeparator(a[1..], sep, b);
    }
  }

  /** A string without the separator is a single piece. */
  lemma {:induction false} SplitWithoutSeparator(s: string, sep: char)
    requires sep !in s
    ensures Split(s, sep) == [s]
    decreases |s|
  {
    if s != [] {
      assert sep !in s[1..];
      SplitWithoutSeparator(s[1..], sep);
      assert s == [s[0]] + s[1..];
    }
  }

  /** Joining pieces that hold no separator and splitting again gives the
      pieces back: `Split` and `JoinWith` are inverse. */
  lemma {:induction false} SplitJoin(pieces: seq<string>, sep: char)
    requires |pieces| >= 1
    requires forall i :: 0 <= i < |pieces| ==> sep !in pieces[i]
    ensures Split(JoinWith(pieces, [sep]), sep) == pieces
    decreases |pieces|
  {
    SplitWithoutSeparator(pieces[0], sep);
    if |pieces| > 1 {
      SplitJoin(pieces[1..], sep);
      SplitAtSeparator(pieces[0], sep, JoinWith(pieces[1..], [sep]));
      assert pieces[0] + [sep] + JoinWith(pieces[1..], [sep]) == JoinWith(pieces, [sep]);
      assert pieces == [pieces[0]] + pieces[1..];
    }
  }

  /** `m` deleted from each field separately. */
  function DeleteInEach(fields: seq<string>, m: string): (r: seq<string>)
    requires m != ""
    ensures |r| == |fields|
    ensures forall i :: 0 <= i < |r| ==> r[i] == DeleteAll(fields[i], m)
    decreases |fields|
  {
    if fields == [] then [] else [DeleteAll(fields[0], m)] + DeleteInEach(fields[1..], m)
  }

  /** `DeleteInEach` distributes over concatenation of field lists. */
  lemma {:induction false} DeleteInEachAppend(x: seq<string>, y: seq<string>, m: string)
    requires m != ""
    ensures DeleteInEach(x + y, m) == DeleteInEach(x, m) + DeleteInEach(y, m)
  {
  }

  /** Deleting a comma-free marker and then splitting on commas is the same
      as splitting first and deleting the marker inside every field. */
  lemma {:induction false} SplitAfterDeleteAll(s: string, sep: char, m: string)
    requires m != "" && sep !in m
    ensures Split(DeleteAll(s, m), sep) == DeleteInEach(Split(s, sep), m)
    decreases |s|
  {
    var d := DeleteAll(s, m);
    if sep !in s {
      assert sep !in d;
      SplitWithoutSeparator(s, sep);
      SplitWithoutSeparator(d, sep);
    } else {
      var i :| 0 <= i < |s| && s[i] == sep;
      var a, b := s[..i], s[i + 1..];
      assert s == a + [sep] + b;
      DeleteAllAcrossSeparator(a, sep, b, m);
      SplitAtSeparator(a, sep, b);
      SplitAtSeparator(DeleteAll(a, m), sep, DeleteAll(b, m));
      SplitAfterDeleteAll(a, sep, m);
      SplitAfterDeleteAll(b, sep, m);
      DeleteInEachAppend(Split(a, sep), Split(b, sep), m);
    }
  }
}
