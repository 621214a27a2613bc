# brcs: a verified model of the cheat-sheet keyword search

`brcs.py` prints a fixed cheat sheet of bash redirection idioms, one row per
(pattern, description) pair, and can narrow it by keyword:

- `-i/--isearch WORD...` (intersection) keeps a row when every keyword,
  lower-cased, occurs in the lower-cased description;
- `-j/--jsearch WORD...` (join) keeps a row when some keyword, lower-cased,
  occurs in the lower-cased pattern or the lower-cased description;
- with neither option the whole table is shown.

This project models that search and proves what it promises: each search
returns an order-preserving subsequence of the table, exactly the rows that
pass its test; keyword case never matters; an empty keyword list keeps
everything (intersection) or nothing (join); more keywords shrink an
intersection and grow a join; the intersection never looks at patterns.

Files and modules:

- `text.dfy`, module `Text`: ASCII `Lower`/`Upper` (Python's `str.lower()`
  and `str.upper()` on ASCII) and `Contains`, Python's `needle in hay` on
  strings, proved equivalent to "occurs at some position".
- `subsequence.dfy`, module `Subsequence`: the subsequence relation and
  selection by increasing positions.
- `brcs.dfy`, module `Brcs`: rows (`Entry`), the three modes (`Mode`), the
  per-row tests, the recursive specification `Filter`, the two search loops
  as methods proved equal to `Filter`, the dispatch of `main`, and the
  lemmas.
- `cheat_sheet.dfy`, module `CheatSheetData`: the 39-row table and concrete
  queries against rows of it.

Intersection search follows the code, not the evident intention: at
brcs.py:101 the name `rdr` is bound to `description.lower()`, so both halves
of the `or` at brcs.py:103 test the description and the pattern is never
consulted. `IntersectionMatch` binds both names to the lower-cased
description as the code does, and `IntersectionIgnoresPatterns` proves the
consequence. The table in brcs.py:10-75 has 39 rows.

`main` passes the constant table to the search; `Dispatch` takes the table
as a parameter, and an option that was not given is an empty keyword list
(argparse's default `""` and an empty list are both false in Python's truth
test, and `nargs='+'` never yields an empty list).

## Model

| member | source | states |
|---|---|---|
| `Text.Contains` | brcs.py:103 | `needle in hay` holds exactly when `needle` occurs at some position of `hay`; the empty string occurs in every string |
| `Text.Lower` | brcs.py:101-103 | `s.lower()` keeps the length and folds each character, `A`-`Z` to `a`-`z`, leaving every other character as it is |
| `Text.LowerOfUpper` | brcs.py:103 | lower-casing an upper-cased keyword gives the same string as lower-casing the keyword |
| `Text.LowerIdempotent` | brcs.py:103 | lower-casing twice is lower-casing once |
| `Brcs.IntersectionMatch` | brcs.py:100-104 | a row passes the intersection test iff every keyword, lower-cased, occurs in the lower-cased description; the pattern plays no part |
| `Brcs.JoinMatch` | brcs.py:111-115 | a row passes the join test iff some keyword, lower-cased, occurs in the lower-cased pattern or in the lower-cased description |
| `Brcs.Filter` | brcs.py:98-117 | the rows kept by a search number at most the table's rows, and each is a row of the table that passes the test |
| `Brcs.IntersectionSearch` | brcs.py:98-106 | the loop returns exactly `Filter` of the intersection test: an order-preserving subsequence of the table holding each row iff the row passes every keyword |
| `Brcs.JoinSearch` | brcs.py:109-117 | the loop returns exactly `Filter` of the join test: an order-preserving subsequence of the table holding each row iff some keyword matches its pattern or description |
| `Brcs.ModeOf` | brcs.py:121-126 | the table is shown whole exactly when neither option has keywords; intersection is chosen exactly when `-i` has keywords, whatever `-j` holds; a chosen search gets the keywords of its own option, and they are never empty |
| `Brcs.Dispatch` | brcs.py:120-126 | non-empty `-i` keywords select intersection even when `-j` keywords are also present; otherwise non-empty `-j` keywords select join; otherwise the table comes back unchanged and in order |
| `Brcs.FilterMembership` | brcs.py:100-105 | a row is in a search result iff it is in the table and passes the test (both directions) |
| `Brcs.FilterIsSubsequence` | brcs.py:99-106 | a search result is the table with rows deleted, never reordered, altered or added |
| `Brcs.FilterPositions` | brcs.py:99-117 | a search result is the table's rows at the strictly increasing positions `Positions`, and a position is among them iff its row passes the test |
| `Subsequence.SubsequenceLength` | brcs.py:99-106 | a subsequence, hence a search result, is no longer than the table |
| `Subsequence.SubsequenceMembers` | brcs.py:99-106 | every row of a subsequence, hence of a search result, is a row of the table |
| `Brcs.FullShowsAll` | brcs.py:121 | without options every row is shown, in table order |
| `Brcs.EmptyIntersectionKeepsAll` | brcs.py:103-104 | `all` over no keywords is true: an intersection search without keywords returns the table |
| `Brcs.EmptyJoinKeepsNone` | brcs.py:114-115 | `any` over no keywords is false: a join search without keywords returns nothing |
| `Brcs.FilterKeepsAllMatching` | brcs.py:99-106 | a search over a table whose every row passes returns the table unchanged |
| `Brcs.FilterDropsAllFailing` | brcs.py:110-117 | a search over a table none of whose rows passes returns nothing |
| `Brcs.FilterIdempotent` | brcs.py:98-117 | searching a search result again with the same query returns it unchanged |
| `Brcs.FilterStricter` | brcs.py:98-117 | a test that passes fewer rows selects a subsequence of what a more permissive test selects |
| `Brcs.FilterSameTest` | brcs.py:98-117 | two tests that agree on every row give the same result |
| `Brcs.IntersectionMoreKeywords` | brcs.py:103-104 | adding keywords to an intersection search yields a subsequence of the previous result |
| `Brcs.JoinMoreKeywords` | brcs.py:114-115 | adding keywords to a join search yields a supersequence of the previous result |
| `Brcs.KeywordCaseIrrelevant` | brcs.py:101-114 | two keyword lists equal after lower-casing give identical results in both searches |
| `Brcs.KeywordCaseVariants` | brcs.py:101-114 | replacing one keyword by its upper-case or lower-case form leaves both searches' results identical |
| `Brcs.IntersectionIgnoresPatterns` | brcs.py:100-104 | two tables with the same descriptions, whatever their patterns, have the intersection search select rows at the same positions, so the results have the same descriptions |
| `CheatSheetData.DevTcpMatchesTcp` | brcs.py:48-49 | the keyword `tcp` occurs, ignoring case, in the pattern `exec 3<> /dev/tcp/host/port`, and the row passes the join test for `tcp` |
| `CheatSheetData.JoinTcpShowsDevTcp` | brcs.py:109-117 | `-j tcp` shows the `/dev/tcp` row of any table that lists it |
| `CheatSheetData.RedirectInFirstRow` | brcs.py:10 | `redirect` occurs, ignoring case, in the first row's description |
| `CheatSheetData.StdoutInFirstRow` | brcs.py:10 | `stdout` occurs in the first row's description |
| `CheatSheetData.RedirectStdoutMatches` | brcs.py:10 | the first row passes the intersection test for `redirect stdout` |
| `CheatSheetData.IntersectionRedirectStdoutShowsFirstRow` | brcs.py:98-106 | `-i redirect stdout` shows the first row of any table that lists it |
| `CheatSheetData.AppendStdoutHasNoR` | brcs.py:14 | the description "Append stdout of cmd to a file." has no `r` or `R` |
| `CheatSheetData.RedirectNotInAppendStdout` | brcs.py:14 | `redirect` does not occur, in any case, in that description |
| `CheatSheetData.AppendStdoutLacksRedirect` | brcs.py:14 | that row fails the intersection test for `redirect stdout` |
| `CheatSheetData.IntersectionRedirectStdoutOmitsAppend` | brcs.py:98-106 | `-i redirect stdout` never shows the row `cmd >> file` |
| `CheatSheetData.TableSizeAndFirstRow` | brcs.py:10-75 | the table has 39 rows and its first is `cmd > file` |
| `CheatSheetData.NamedRowsListed` | brcs.py:10-75 | rows 3 and 25 of the table are `cmd >> file` and `exec 3<> /dev/tcp/host/port` |
| `CheatSheetData.CheatSheetJoinTcp` | brcs.py:109-126 | `-j tcp` on the cheat sheet shows its `/dev/tcp` row |
| `CheatSheetData.CheatSheetIntersectionShowsFirstRow` | brcs.py:98-126 | `-i redirect stdout` on the cheat sheet shows its first row |
| `CheatSheetData.CheatSheetIntersectionOmitsAppend` | brcs.py:98-126 | the cheat sheet lists `cmd >> file`, and `-i redirect stdout` on it does not show that row |

## Left out

- Argument parsing (brcs.py:78-95): argparse is a library. Its mutually exclusive group, which rejects `-i` together with `-j` with a usage error before any search, and its silent dropping of unknown arguments are not modelled; `Dispatch` receives the two keyword lists that parsing produced.
- Rendering (brcs.py:128): `tabulate` and `print` are a foreign table renderer and standard output.
- Case folding beyond ASCII: Python's `str.lower()` folds all of Unicode; `Lower` folds `A`-`Z` only, which covers every string of the table but not every keyword a user could type.
- Lists as objects: the searches build new Python lists of two-element lists. Here rows and results are values, so "the input table is not modified" and "the result is a fresh list" hold by construction and are not separate statements; aliasing is not modelled.
- Rows that are not pairs: unpacking at brcs.py:100 and 111 would fail on such a row; `Entry` always has two fields.
- The concrete queries state only whether the named rows are shown, not the whole result of a search over the 39-row table.
