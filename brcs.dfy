/**
 * The keyword search of the bash redirection cheat sheet (brcs.py): two
 * filters over a table of (pattern, description) rows and the choice
 * between them that `main` makes from the command-line options.
 */
module Brcs {
  import opened Text
  import opened Subsequence

  /** One row of the cheat sheet: a redirection idiom and what it does. */
  datatype Entry = Entry(pattern: string, description: string)

  /**
   * What the options ask for: keywords given with `-i` (intersection),
   * keywords given with `-j` (join), or neither (the whole table).
   */
  datatype Mode = Full | Intersection(keywords: seq<string>) | Join(keywords: seq<string>)

  /**
   * The test `intersection_search` applies to one row. Both names it tests
   * against hold the lower-cased description, so the pattern is never looked at.
   */
  function IntersectionMatch(searchWords: seq<string>, e: Entry): (r: bool)
    ensures r <==> forall k :: k in searchWords ==> Contains(Lower(k), Lower(e.description))
  {
    var rdr := Lower(e.description);
    var desc := Lower(e.description);
    forall i | 0 <= i < |searchWords| ::
      Contains(Lower(searchWords[i]), rdr) || Contains(Lower(searchWords[i]), desc)
  }

  /** The test `join_search` applies to one row: some keyword occurs in the pattern or the description. */
  function JoinMatch(searchWords: seq<string>, e: Entry): (r: bool)
    ensures r <==> exists k :: k in searchWords &&
                     (Contains(Lower(k), Lower(e.pattern)) || Contains(Lower(k), Lower(e.description)))
  {
    var rdr := Lower(e.pattern);
    var desc := Lower(e.description);
    exists i | 0 <= i < |searchWords| ::
      Contains(Lower(searchWords[i]), rdr) || Contains(Lower(searchWords[i]), desc)
  }

  /** Whether a row is shown in the given mode. */
  predicate Matches(m: Mode, e: Entry)
  {
    match m
    case Full => true
    case Intersection(ks) => IntersectionMatch(ks, e)
    case Join(ks) => JoinMatch(ks, e)
  }

  /**
   * The rows of `sheet` that are shown in mode `m`, in table order: the
   * specification both searches are proved against.
   */
  function Filter(m: Mode, sheet: seq<Entry>): (r: seq<Entry>)
    ensures |r| <= |sheet|
    ensures forall e :: e in r ==> e in sheet && Matches(m, e)
    decreases |sheet|
  {
    if sheet == [] then []
    else
      var last := sheet[|sheet| - 1];
      Filter(m, sheet[..|sheet| - 1]) + (if Matches(m, last) then [last] else [])
  }

  /**
   * Python's truth test on the parsed options: an option given has at least
   * one keyword, `-i` is tested first, and with neither the whole table is shown.
   */
  function ModeOf(isearch: seq<string>, jsearch: seq<string>): (m: Mode)
    ensures m.Full? <==> isearch == [] && jsearch == []
    ensures m.Intersection? <==> isearch != []
    ensures m.Intersection? ==> m.keywords == isearch
    ensures m.Join? ==> m.keywords == jsearch
    ensures !m.Full? ==> m.keywords != []
  {
    if isearch != [] then Intersection(isearch)
    else if jsearch != [] then Join(jsearch)
    else Full
  }

  /** `intersection_search`: the rows whose description contains every keyword, ignoring case. */
  method IntersectionSearch(searchWords: seq<string>, cheatSheet: seq<Entry>) returns (matchingWords: seq<Entry>)
    ensures matchingWords == Filter(Intersection(searchWords), cheatSheet)
    ensures IsSubsequence(matchingWords, cheatSheet)
    ensures forall e :: e in matchingWords <==> e in cheatSheet && IntersectionMatch(searchWords, e)
  {
    matchingWords := [];
    for i := 0 to |cheatSheet|
      invariant matchingWords == Filter(Intersection(searchWords), cheatSheet[..i])
    {
      assert cheatSheet[..i + 1][..i] == cheatSheet[..i];
      if IntersectionMatch(searchWords, cheatSheet[i]) {
        matchingWords := matchingWords + [cheatSheet[i]];
      }
    }
    assert cheatSheet[..|cheatSheet|] == cheatSheet;
    FilterIsSubsequence(Intersection(searchWords), cheatSheet);
    FilterMembership(Intersection(searchWords), cheatSheet);
  }

  /** `join_search`: the rows whose pattern or description contains some keyword, ignoring case. */
  method JoinSearch(searchWords: seq<string>, cheatSheet: seq<Entry>) returns (matchingCommands: seq<Entry>)
    ensures matchingCommands == Filter(Join(searchWords), cheatSheet)
    ensures IsSubsequence(matchingCommands, cheatSheet)
    ensures forall e :: e in matchingCommands <==> e in cheatSheet && JoinMatch(searchWords, e)
  {
    matchingCommands := [];
    for i := 0 to |cheatSheet|
      invariant matchingCommands == Filter(Join(searchWords), cheatSheet[..i])
    {
      assert cheatSheet[..i + 1][..i] == cheatSheet[..i];
      if JoinMatch(searchWords, cheatSheet[i]) {
        matchingCommands := matchingCommands + [cheatSheet[i]];
      }
    }
    assert cheatSheet[..|cheatSheet|] == cheatSheet;
    FilterIsSubsequence(Join(searchWords), cheatSheet);
    FilterMembership(Join(searchWords), cheatSheet);
  }

  /**
   * The choice `main` makes: `-i` keywords win, then `-j` keywords, and with
   * neither the table is shown whole. An option not given has no keywords.
   */
  method Dispatch(isearch: seq<string>, jsearch: seq<string>, table: seq<Entry>) returns (cheatSheet: seq<Entry>)
    ensures cheatSheet == Filter(ModeOf(isearch, jsearch), table)
    ensures isearch != [] ==> cheatSheet == Filter(Intersection(isearch), table)
    ensures isearch == [] && jsearch != [] ==> cheatSheet == Filter(Join(jsearch), table)
    ensures isearch == [] && jsearch == [] ==> cheatSheet == table
  {
    cheatSheet := table;
    if isearch != [] {
      cheatSheet := IntersectionSearch(isearch, table);
    } else if jsearch != [] {
      cheatSheet := JoinSearch(jsearch, table);
    } else {
      FullShowsAll(table);
    }
  }

  // ---------------------------------------------------------------------
  // Properties of the specification
  // ---------------------------------------------------------------------

  /** A row is in the result exactly when it is in the table and passes the mode's test. */
  lemma {:induction false} FilterMembership(m: Mode, sheet: seq<Entry>)
    ensures forall e :: e in Filter(m, sheet) <==> e in sheet && Matches(m, e)
    decreases |sheet|
  {
    if sheet != [] {
      var init := sheet[..|sheet| - 1];
      assert sheet == init + [sheet[|sheet| - 1]];
      FilterMembership(m, init);
    }
  }

  /** The result keeps the table's order and never duplicates or alters a row. */
  lemma {:induction false} FilterIsSubsequence(m: Mode, sheet: seq<Entry>)
    ensures IsSubsequence(Filter(m, sheet), sheet)
    decreases |sheet|
  {
    if sheet != [] {
      var init := sheet[..|sheet| - 1];
      var last := sheet[|sheet| - 1];
      FilterIsSubsequence(m, init);
      SubsequenceAppend(Filter(m, init), init, last);
      assert sheet == init + [last];
      if Matches(m, last) {
        assert Filter(m, sheet) == Filter(m, init) + [last];
      } else {
        assert Filter(m, sheet) == Filter(m, init);
      }
    }
  }

  /** The positions of the rows of `sheet` that pass the test of mode `m`, in increasing order. */
  function Positions(m: Mode, sheet: seq<Entry>): (idx: seq<int>)
    decreases |sheet|
  {
    if sheet == [] then []
    else
      var n := |sheet| - 1;
      Positions(m, sheet[..n]) + (if Matches(m, sheet[n]) then [n] else [])
  }

  /**
   * The result is exactly the rows at `Positions(m, sheet)`, which increase
   * strictly, and a position is among them exactly when its row passes the
   * mode's test.
   */
  lemma {:induction false} FilterPositions(m: Mode, sheet: seq<Entry>)
    ensures SelectsAt(Filter(m, sheet), sheet, Positions(m, sheet))
    ensures forall i :: 0 <= i < |sheet| ==> (i in Positions(m, sheet) <==> Matches(m, sheet[i]))
    decreases |sheet|
  {
    if sheet != [] {
      var n := |sheet| - 1;
      var init, last := sheet[..n], sheet[n];
      assert sheet == init + [last];
      FilterPositions(m, init);
      var prev, r := Positions(m, init), Filter(m, init);
      SelectsAtAppend(r, init, prev, last);
      var keep := Matches(m, last);
      var idx := Positions(m, sheet);
      assert idx == if keep then prev + [n] else prev;
      assert Filter(m, sheet) == if keep then r + [last] else r;
      assert n !in prev;
      assert forall i :: i in idx <==> i in prev || (keep && i == n);
      forall i | 0 <= i < n
        ensures i in idx <==> Matches(m, sheet[i])
      {
        assert init[i] == sheet[i];
      }
    }
  }

  /** When every row of the table passes the test, the table comes back unchanged. */
  lemma {:induction false} FilterKeepsAllMatching(m: Mode, sheet: seq<Entry>)
    requires forall i :: 0 <= i < |sheet| ==> Matches(m, sheet[i])
    ensures Filter(m, sheet) == sheet
    decreases |sheet|
  {
    if sheet != [] {
      var init := sheet[..|sheet| - 1];
      assert sheet == init + [sheet[|sheet| - 1]];
      FilterKeepsAllMatching(m, init);
    }
  }

  /** When no row passes the test, nothing is shown. */
  lemma {:induction false} FilterDropsAllFailing(m: Mode, sheet: seq<Entry>)
    requires forall i :: 0 <= i < |sheet| ==> !Matches(m, sheet[i])
    ensures Filter(m, sheet) == []
    decreases |sheet|
  {
    if sheet != [] {
      FilterDropsAllFailing(m, sheet[..|sheet| - 1]);
    }
  }

  /** Without options the whole table is shown, in order. */
  lemma {:induction false} FullShowsAll(sheet: seq<Entry>)
    ensures Filter(Full, sheet) == sheet
  {
    FilterKeepsAllMatching(Full, sheet);
  }

  /** `all` over no keywords is true: an intersection search without keywords keeps every row. */
  lemma {:induction false} EmptyIntersectionKeepsAll(sheet: seq<Entry>)
    ensures Filter(Intersection([]), sheet) == sheet
  {
    FilterKeepsAllMatching(Intersection([]), sheet);
  }

  /** `any` over no keywords is false: a join search without keywords keeps no row. */
  lemma {:induction false} EmptyJoinKeepsNone(sheet: seq<Entry>)
    ensures Filter(Join([]), sheet) == []
  {
    FilterDropsAllFailing(Join([]), sheet);
  }

  /** Searching the result of a search again with the same query changes nothing. */
  lemma {:induction false} FilterIdempotent(m: Mode, sheet: seq<Entry>)
    ensures Filter(m, Filter(m, sheet)) == Filter(m, sheet)
  {
    var r := Filter(m, sheet);
    assert forall i :: 0 <= i < |r| ==> r[i] in r;
    FilterKeepsAllMatching(m, r);
  }

  /** A test that passes fewer rows selects a subsequence of what a more permissive test selects. */
  lemma {:induction false} FilterStricter(m1: Mode, m2: Mode, sheet: seq<Entry>)
    requires forall e :: Matches(m1, e) ==> Matches(m2, e)
    ensures IsSubsequence(Filter(m1, sheet), Filter(m2, sheet))
    decreases |sheet|
  {
    if sheet == [] {
    } else {
      var init := sheet[..|sheet| - 1];
      var last := sheet[|sheet| - 1];
      FilterStricter(m1, m2, init);
      var r1, r2 := Filter(m1, init), Filter(m2, init);
      SubsequenceAppend(r1, r2, last);
      if Matches(m1, last) {
        assert Filter(m1, sheet) == r1 + [last] && Filter(m2, sheet) == r2 + [last];
      } else if Matches(m2, last) {
        assert Filter(m1, sheet) == r1 && Filter(m2, sheet) == r2 + [last];
      } else {
        assert Filter(m1, sheet) == r1 && Filter(m2, sheet) == r2;
      }
    }
  }

  /** Two tests that agree on every row select the same rows. */
  lemma {:induction false} FilterSameTest(m1: Mode, m2: Mode, sheet: seq<Entry>)
    requires forall e :: Matches(m1, e) == Matches(m2, e)
    ensures Filter(m1, sheet) == Filter(m2, sheet)
    decreases |sheet|
  {
    if sheet != [] {
      FilterSameTest(m1, m2, sheet[..|sheet| - 1]);
    }
  }

  /** Adding keywords to an intersection search can only drop rows, never add or reorder them. */
  lemma IntersectionMoreKeywords(fewer: seq<string>, more: seq<string>, sheet: seq<Entry>)
    requires forall k :: k in fewer ==> k in more
    ensures IsSubsequence(Filter(Intersection(more), sheet), Filter(Intersection(fewer), sheet))
  {
    FilterStricter(Intersection(more), Intersection(fewer), sheet);
  }

  /** Adding keywords to a join search can only add rows, never drop or reorder them. */
  lemma JoinMoreKeywords(fewer: seq<string>, more: seq<string>, sheet: seq<Entry>)
    requires forall k :: k in fewer ==> k in more
    ensures IsSubsequence(Filter(Join(fewer), sheet), Filter(Join(more), sheet))
  {
    FilterStricter(Join(fewer), Join(more), sheet);
  }

  /** Two keyword lists that are equal once lower-cased. */
  ghost predicate SameFolded(ks1: seq<string>, ks2: seq<string>)
  {
    |ks1| == |ks2| && forall i :: 0 <= i < |ks1| ==> Lower(ks1[i]) == Lower(ks2[i])
  }

  /** Keyword lists that differ only in letter case give the same results in both searches. */
  lemma {:induction false} KeywordCaseIrrelevant(ks1: seq<string>, ks2: seq<string>, sheet: seq<Entry>)
    requires SameFolded(ks1, ks2)
    ensures Filter(Intersection(ks1), sheet) == Filter(Intersection(ks2), sheet)
    ensures Filter(Join(ks1), sheet) == Filter(Join(ks2), sheet)
  {
    forall e ensures Matches(Intersection(ks1), e) == Matches(Intersection(ks2), e) {
      assert IntersectionMatch(ks1, e) == IntersectionMatch(ks2, e) by {
        if IntersectionMatch(ks1, e) {
          forall k | k in ks2 ensures Contains(Lower(k), Lower(e.description)) {
            var i :| 0 <= i < |ks2| && ks2[i] == k;
            assert ks1[i] in ks1;
          }
        }
        if IntersectionMatch(ks2, e) {
          forall k | k in ks1 ensures Contains(Lower(k), Lower(e.description)) {
            var i :| 0 <= i < |ks1| && ks1[i] == k;
            assert ks2[i] in ks2;
          }
        }
      }
    }
    forall e ensures Matches(Join(ks1), e) == Matches(Join(ks2), e) {
      if JoinMatch(ks1, e) {
        var k :| k in ks1 && (Contains(Lower(k), Lower(e.pattern)) || Contains(Lower(k), Lower(e.description)));
        var i :| 0 <= i < |ks1| && ks1[i] == k;
        assert ks2[i] in ks2;
      }
      if JoinMatch(ks2, e) {
        var k :| k in ks2 && (Contains(Lower(k), Lower(e.pattern)) || Contains(Lower(k), Lower(e.description)));
        var i :| 0 <= i < |ks2| && ks2[i] == k;
        assert ks1[i] in ks1;
      }
    }
    FilterSameTest(Intersection(ks1), Intersection(ks2), sheet);
    FilterSameTest(Join(ks1), Join(ks2), sheet);
  }

  /** Replacing one keyword by its upper-case or lower-case form changes neither search's result. */
  lemma KeywordCaseVariants(ks: seq<string>, j: nat, sheet: seq<Entry>)
    requires j < |ks|
    ensures Filter(Intersection(ks[j := Upper(ks[j])]), sheet) == Filter(Intersection(ks), sheet)
    ensures Filter(Join(ks[j := Upper(ks[j])]), sheet) == Filter(Join(ks), sheet)
    ensures Filter(Intersection(ks[j := Lower(ks[j])]), sheet) == Filter(Intersection(ks), sheet)
    ensures Filter(Join(ks[j := Lower(ks[j])]), sheet) == Filter(Join(ks), sheet)
  {
    LowerOfUpper(ks[j]);
    LowerIdempotent(ks[j]);
    KeywordCaseIrrelevant(ks[j := Upper(ks[j])], ks, sheet);
    KeywordCaseIrrelevant(ks[j := Lower(ks[j])], ks, sheet);
  }

  /** The descriptions of a list of rows, in order. */
  function Descriptions(sheet: seq<Entry>): (r: seq<string>)
    ensures |r| == |sheet|
    ensures forall i :: 0 <= i < |sheet| ==> r[i] == sheet[i].description
  {
    seq(|sheet|, i requires 0 <= i < |sheet| => sheet[i].description)
  }

  /** Appending a row appends its description. */
  lemma DescriptionsAppend(rows: seq<Entry>, e: Entry)
    ensures Descriptions(rows + [e]) == Descriptions(rows) + [e.description]
  {
  }

  /**
   * An intersection search never looks at patterns: two tables whose rows
   * have the same descriptions, whatever their patterns, select the rows at
   * the same positions, so their results have the same descriptions.
   */
  lemma {:induction false} IntersectionIgnoresPatterns(ks: seq<string>, s1: seq<Entry>, s2: seq<Entry>)
    requires Descriptions(s1) == Descriptions(s2)
    ensures Positions(Intersection(ks), s1) == Positions(Intersection(ks), s2)
    ensures Descriptions(Filter(Intersection(ks), s1)) == Descriptions(Filter(Intersection(ks), s2))
    decreases |s1|
  {
    if s1 != [] {
      var n := |s1| - 1;
      var e1, e2 := s1[n], s2[n];
      assert e1.description == Descriptions(s1)[n] == Descriptions(s2)[n] == e2.description;
      assert Descriptions(s1[..n]) == Descriptions(s1)[..n] == Descriptions(s2)[..n] == Descriptions(s2[..n]);
      IntersectionIgnoresPatterns(ks, s1[..n], s2[..n]);
      var r1 := Filter(Intersection(ks), s1[..n]);
      var r2 := Filter(Intersection(ks), s2[..n]);
      if IntersectionMatch(ks, e1) {
        assert IntersectionMatch(ks, e2);
        DescriptionsAppend(r1, e1);
        DescriptionsAppend(r2, e2);
      } else {
        assert !IntersectionMatch(ks, e2);
        assert Filter(Intersection(ks), s1) == r1 && Filter(Intersection(ks), s2) == r2;
      }
    }
  }
}
