/**
 The per-feed title filter of `send_tweets`.

 A feed's filter is a plain string. Empty means "post everything". When the
 string holds `INCLUDE:` somewhere, every occurrence of that marker is
 deleted, the rest is split at commas, and a title passes when it contains
 at least one piece. Otherwise, when it holds `EXCLUDE:` somewhere, the same
 is done with that marker and a title passes when it contains no piece. A
 non-empty string with neither marker lets every title through. Pieces are
 not trimmed, and an empty piece is contained in every title.
 */
module TitleFilter {
  import opened Text

  const INCLUDE_MARKER: string := "INCLUDE:"
  const EXCLUDE_MARKER: string := "EXCLUDE:"

  /** The comma-separated pieces left once every `marker` is deleted. */
  function Pieces(filter: string, marker: string): (pieces: seq<string>)
    requires marker != ""
  {
    Split(DeleteAll(filter, marker), ',')
  }

  /** Some piece occurs in the title. */
  ghost predicate SomePieceIn(title: string, pieces: seq<string>)
  {
    exists i :: 0 <= i < |pieces| && Contains(title, pieces[i])
  }

  /** No piece occurs in the title. */
  ghost predicate NoPieceIn(title: string, pieces: seq<string>)
  {
    forall i :: 0 <= i < |pieces| ==> !Contains(title, pieces[i])
  }

  /** Whether an entry with this title is posted under this filter. */
  ghost predicate Passes(filter: string, title: string)
  {
    if filter == "" then true
    else if Contains(filter, INCLUDE_MARKER) then SomePieceIn(title, Pieces(filter, INCLUDE_MARKER))
    else if Contains(filter, EXCLUDE_MARKER) then NoPieceIn(title, Pieces(filter, EXCLUDE_MARKER))
    else true
  }

  /** The decision as `send_tweets` computes it: a flag, reset or set while
      the pieces are walked in order. */
  method FilterTitle(filter: string, title: string) returns (sendTweet: bool)
    ensures sendTweet == Passes(filter, title)
  {
    sendTweet := true;
    var rest := filter;
    if rest != "" {
      if Contains(rest, INCLUDE_MARKER) {
        sendTweet := false;
        rest := DeleteAll(rest, INCLUDE_MARKER);
        var split := Split(rest, ',');
        for k := 0 to |split|
          invariant sendTweet == SomePieceIn(title, split[..k])
        {
          if Contains(title, split[k]) {
            sendTweet := true;
          }
          assert split[..k + 1][k] == split[k];
        }
        assert split[..|split|] == split;
      } else if Contains(rest, EXCLUDE_MARKER) {
        rest := DeleteAll(rest, EXCLUDE_MARKER);
        var split := Split(rest, ',');
        for k := 0 to |split|
          invariant sendTweet == NoPieceIn(title, split[..k])
        {
          if Contains(title, split[k]) {
            sendTweet := false;
          }
          assert split[..k + 1][k] == split[k];
        }
        assert split[..|split|] == split;
      }
    }
  }

  /** An empty filter posts every entry. */
  lemma EmptyFilterPassesAll(title: string)
    ensures Passes("", title)
  {
  }

  /** A non-empty filter holding neither marker posts every entry. */
  lemma UnmarkedFilterPassesAll(filter: string, title: string)
    requires filter != "" && !Contains(filter, INCLUDE_MARKER) && !Contains(filter, EXCLUDE_MARKER)
    ensures Passes(filter, title)
  {
  }

  /** With `INCLUDE:` anywhere in the filter, the filter is read field by
      field: every comma-separated field of the raw string, with each
      `INCLUDE:` inside it deleted, is a candidate piece. `EXCLUDE:` plays no
      part (it stays inside a piece as ordinary text). */
  lemma IncludeReadsEachField(filter: string, title: string)
    requires Contains(filter, INCLUDE_MARKER)
    ensures Passes(filter, title) <==>
      exists i :: 0 <= i < |Split(filter, ',')| && Contains(title, DeleteAll(Split(filter, ',')[i], INCLUDE_MARKER))
  {
    SplitAfterDeleteAll(filter, ',', INCLUDE_MARKER);
  }

  /** With `EXCLUDE:` but no `INCLUDE:` in the filter, a title passes iff it
      contains no field of the raw string with each `EXCLUDE:` deleted. */
  lemma ExcludeReadsEachField(filter: string, title: string)
    requires !Contains(filter, INCLUDE_MARKER) && Contains(filter, EXCLUDE_MARKER)
    ensures Passes(filter, title) <==>
      forall i :: 0 <= i < |Split(filter, ',')| ==> !Contains(title, DeleteAll(Split(filter, ',')[i], EXCLUDE_MARKER))
  {
    SplitAfterDeleteAll(filter, ',', EXCLUDE_MARKER);
  }

  /** Neither marker repeats a prefix of itself as a suffix. */
  lemma MarkersUnbordered()
    ensures Unbordered(INCLUDE_MARKER) && Unbordered(EXCLUDE_MARKER)
  {
    forall k | 0 < k < |INCLUDE_MARKER| ensures INCLUDE_MARKER[k..] != INCLUDE_MARKER[..|INCLUDE_MARKER| - k] {
      assert INCLUDE_MARKER[k..][0] != INCLUDE_MARKER[..|INCLUDE_MARKER| - k][0];
    }
    forall k | 0 < k < |EXCLUDE_MARKER| ensures EXCLUDE_MARKER[k..] != EXCLUDE_MARKER[..|EXCLUDE_MARKER| - k] {
      if k == 6 {
        assert EXCLUDE_MARKER[k..][1] != EXCLUDE_MARKER[..|EXCLUDE_MARKER| - k][1];
      } else {
        assert EXCLUDE_MARKER[k..][0] != EXCLUDE_MARKER[..|EXCLUDE_MARKER| - k][0];
      }
    }
  }

  /** The `INCLUDE:` marker may stand anywhere, not only in front: a filter
      `a + "INCLUDE:" + b` (no other marker) includes the pieces of `a + b`. */
  lemma IncludeMarkerAnywhere(a: string, b: string, title: string)
    requires !Contains(a, INCLUDE_MARKER) && !Contains(b, INCLUDE_MARKER)
    ensures Passes(a + INCLUDE_MARKER + b, title) <==> SomePieceIn(title, Split(a + b, ','))
  {
    MarkersUnbordered();
    ContainsInfix(a, INCLUDE_MARKER, b);
    DeleteAllAround(a, INCLUDE_MARKER, b);
  }

  /** A string that starts with characters none of which begins `p` holds
      `p` only where its tail does. */
  lemma {:induction false} ContainsPastPrefix(x: string, w: string, p: string)
    requires p != "" && p[0] !in x
    ensures Contains(x + w, p) <==> Contains(w, p)
    decreases |x|
  {
    if x == [] {
      assert x + w == w;
    } else {
      var s := x + w;
      assert s[1..] == x[1..] + w;
      ContainsPastPrefix(x[1..], w, p);
      if |p| <= |s| {
        assert s[..|p|][0] == x[0] != p[0];
      }
      assert Contains(s, p) == Contains(s[1..], p);
    }
  }

  /** `EXCLUDE:` may stand anywhere too: a filter `a + "EXCLUDE:" + b` with no
      other marker excludes the pieces of `a + b`. */
  lemma ExcludeMarkerAnywhere(a: string, b: string, title: string)
    requires !Contains(a + EXCLUDE_MARKER + b, INCLUDE_MARKER)
    requires !Contains(a, EXCLUDE_MARKER) && !Contains(b, EXCLUDE_MARKER)
    ensures Passes(a + EXCLUDE_MARKER + b, title) <==> NoPieceIn(title, Split(a + b, ','))
  {
    MarkersUnbordered();
    ContainsInfix(a, EXCLUDE_MARKER, b);
    DeleteAllAround(a, EXCLUDE_MARKER, b);
  }

  /** A single include term: the title must contain that term. */
  lemma IncludeSingleTerm(term: string, title: string)
    requires ',' !in term && !Contains(term, INCLUDE_MARKER)
    ensures Passes(INCLUDE_MARKER + term, title) <==> Contains(title, term)
  {
    assert "" + INCLUDE_MARKER + term == INCLUDE_MARKER + term;
    assert "" + term == term;
    IncludeMarkerAnywhere("", term, title);
    SplitWithoutSeparator(term, ',');
    assert SomePieceIn(title, [term]) <==> Contains(title, term) by {
      if Contains(title, term) { assert Contains(title, [term][0]); }
    }
  }

  /** A single exclude term: the title must not contain that term. */
  lemma ExcludeSingleTerm(term: string, title: string)
    requires ',' !in term && !Contains(term, INCLUDE_MARKER) && !Contains(term, EXCLUDE_MARKER)
    ensures Passes(EXCLUDE_MARKER + term, title) <==> !Contains(title, term)
  {
    assert "" + EXCLUDE_MARKER + term == EXCLUDE_MARKER + term;
    assert "" + term == term;
    assert INCLUDE_MARKER[0] == 'I' && 'I' !in EXCLUDE_MARKER;
    ContainsPastPrefix(EXCLUDE_MARKER, term, INCLUDE_MARKER);
    ExcludeMarkerAnywhere("", term, title);
    SplitWithoutSeparator(term, ',');
    assert NoPieceIn(title, [term]) <==> !Contains(title, term) by {
      if Contains(title, term) { assert Contains(title, [term][0]); }
    }
  }

  /** The two filters configured in the deployed accounts. */
  lemma ConfiguredFilters(title: string)
    ensures Passes("INCLUDE:Rust", title) <==> Contains(title, "Rust")
    ensures Passes("EXCLUDE:iPhone", title) <==> !Contains(title, "iPhone")
  {
    IncludeSingleTerm("Rust", title);
    assert INCLUDE_MARKER + "Rust" == "INCLUDE:Rust";
    ExcludeSingleTerm("iPhone", title);
    assert EXCLUDE_MARKER + "iPhone" == "EXCLUDE:iPhone";
  }

  /** An empty include piece (from `INCLUDE:` alone, a leading, trailing or
      doubled comma) matches every title, so the filter posts everything. */
  lemma EmptyIncludePieceAdmitsAll(filter: string, title: string)
    requires Contains(filter, INCLUDE_MARKER)
    requires "" in Pieces(filter, INCLUDE_MARKER)
    ensures Passes(filter, title)
  {
    var pieces := Pieces(filter, INCLUDE_MARKER);
    var i :| 0 <= i < |pieces| && pieces[i] == "";
    ContainsEmpty(title);
  }

  /** An empty exclude piece matches every title, so the filter blocks
      everything. */
  lemma EmptyExcludePieceBlocksAll(filter: string, title: string)
    requires !Contains(filter, INCLUDE_MARKER) && Contains(filter, EXCLUDE_MARKER)
    requires "" in Pieces(filter, EXCLUDE_MARKER)
    ensures !Passes(filter, title)
  {
    var pieces := Pieces(filter, EXCLUDE_MARKER);
    var i :| 0 <= i < |pieces| && pieces[i] == "";
    ContainsEmpty(title);
  }

  /** A trailing comma leaves an empty last piece. */
  lemma {:induction false} TrailingCommaGivesEmptyPiece(filter: string, marker: string)
    requires marker != "" && ',' !in marker
    requires |filter| > 0 && filter[|filter| - 1] == ','
    ensures "" in Pieces(filter, marker)
  {
    var a := filter[..|filter| - 1];
    assert filter == a + [','] + "";
    DeleteAllAcrossSeparator(a, ',', "", marker);
    SplitAtSeparator(DeleteAll(a, marker), ',', "");
  }

  /** A lone `INCLUDE:` posts every entry, a lone `EXCLUDE:` none. */
  lemma LoneMarkers(title: string)
    ensures Passes("INCLUDE:", title)
    ensures !Passes("EXCLUDE:", title)
  {
    assert Contains("INCLUDE:", INCLUDE_MARKER) by {
      assert "" + INCLUDE_MARKER + "" == "INCLUDE:";
      ContainsInfix("", INCLUDE_MARKER, "");
    }
    assert DeleteAll("INCLUDE:", INCLUDE_MARKER) == "";
    assert Contains("EXCLUDE:", EXCLUDE_MARKER) by {
      assert "" + EXCLUDE_MARKER + "" == "EXCLUDE:";
      ContainsInfix("", EXCLUDE_MARKER, "");
    }
    assert !Contains("EXCLUDE:", INCLUDE_MARKER) by {
      assert INCLUDE_MARKER[0] == 'I' && 'I' !in EXCLUDE_MARKER;
      assert EXCLUDE_MARKER + "" == "EXCLUDE:";
      ContainsPastPrefix(EXCLUDE_MARKER, "", INCLUDE_MARKER);
    }
    assert DeleteAll("EXCLUDE:", EXCLUDE_MARKER) == "";
    ContainsEmpty(title);
    assert Pieces("INCLUDE:", INCLUDE_MARKER) == [""];
    assert Contains(title, Pieces("INCLUDE:", INCLUDE_MARKER)[0]);
    assert Pieces("EXCLUDE:", EXCLUDE_MARKER) == [""];
    assert Contains(title, Pieces("EXCLUDE:", EXCLUDE_MARKER)[0]);
  }

  /** A trailing comma after an include list posts every entry; after an
      exclude list it blocks every entry. */
  lemma TrailingComma(filter: string, title: string)
    requires |filter| > 0 && filter[|filter| - 1] == ','
    ensures Contains(filter, INCLUDE_MARKER) ==> Passes(filter, title)
    ensures !Contains(filter, INCLUDE_MARKER) && Contains(filter, EXCLUDE_MARKER) ==> !Passes(filter, title)
  {
    if Contains(filter, INCLUDE_MARKER) {
      TrailingCommaGivesEmptyPiece(filter, INCLUDE_MARKER);
      EmptyIncludePieceAdmitsAll(filter, title);
    } else if Contains(filter, EXCLUDE_MARKER) {
      TrailingCommaGivesEmptyPiece(filter, EXCLUDE_MARKER);
      EmptyExcludePieceBlocksAll(filter, title);
    }
  }
}
