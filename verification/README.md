# GTFS stop lookup — a Dafny model

This project models the stop lookup of the GTFS command-line program
`gec2025.c`: `find_stop_in_csv`, which reads a `stops.csv` file, works out
from its header which columns hold `stop_id`, `stop_name`, `stop_lat` and
`stop_lon`, and reports the first data row whose id equals the query or whose
name contains it, ignoring case; the helper `str_to_lower_copy` it uses; the
trimming of `read_line`; and the path arithmetic of `find_file_in_ancestors`
and `get_exe_dir`, which look for the data file in the directories above the
working directory.

The file is given as the sequence of lines `fgets` returns, each still ending
in its line feed. The data rows are trimmed at their first carriage return or
line feed before splitting; the header is not, so its last token keeps the
line ending. Splitting is `strtok(line, ",")`: empty fields vanish, and a row
keeps at most 128 tokens. Within a row the id test runs before the name test,
and the scan stops at the first row that passes either, so a name hit in an
earlier row wins over an exact id hit in a later row. A file with no header
line finds nothing.

Files:

- `wrappers.dfy` — `Option`.
- `cstrings.dfy` — `tolower`, `strcspn`, `strrchr`, `strstr`, reading a
  NUL-terminated string out of a buffer, `StripEol` (the trim) and the
  imperative `StrToLowerCopy` over an `array<char>`.
- `tokenizer.dfy` — `Fields` (the plain comma split, with `Join` as its
  inverse), `Tokens` (its non-empty pieces: what `strtok` returns) and
  `NextToken`, one `strtok` call.
- `stop_lookup.dfy` — the header loop `ResolveHeader`, the row split
  `SplitRow` into a 128-slot array, the row test `MatchRow` and the search
  `FindStopInCsv`, each proved against the specification functions
  `HeaderColumns`, `Row`, `Verdict` and `Search`, and the lemmas about them.
- `ancestor_paths.dfy` — the level-by-level search `FindFileInAncestors`
  with its in-place truncation loop, specified by `Ancestor` and
  `LevelCandidate`, and `ExeDir`.

`FindStopInCsv` returns `NotFound` where the C function returns 0 and
`Found(row, how)` where it returns 1; `row` (0 for the first data row) and
`how` (`ById` or `ByName`) stand for what the C function prints.

## Model

| member | source | states |
|---|---|---|
| `CStrings.LowerCopy` | gec2025.c:244-251 | the copy holds `min(len, size - 1)` bytes, each the `tolower` of the source character at the same position |
| `CStrings.StrToLowerCopy` | gec2025.c:244-251 | writes the lower-cased prefix, then a NUL right after it, never past the buffer; the cells after the NUL are untouched; the string read back from the buffer is `LowerCopy` |
| `CStrings.ToLowerIdempotent` | gec2025.c:248 | lower-casing twice is lower-casing once, and no upper-case letter is left |
| `CStrings.FirstOf` | gec2025.c:230 | `strcspn`: no stop character before the returned position, and a stop character at it unless it is the end |
| `CStrings.StripEol` | gec2025.c:227-232 | the trimmed line is a prefix of the input with no `\r` or `\n`, cut exactly at the first of them |
| `CStrings.LastIndex` | gec2025.c:331-339 | the position of the last element equal to the key, after which no element equals it; -1 exactly when the key is absent |
| `CStrings.LastIndexSnoc` | gec2025.c:333-338 | one more token moves a column's index to that token's position when it is equal to the name and leaves it alone otherwise |
| `CStrings.CStr` | gec2025.c:377-379 | the string `strstr` reads from a buffer holds no NUL and stops at the first one |
| `Tokenizer.FieldsAvoid` | gec2025.c:354-361 | no piece of the comma split holds a comma, nor any character the line does not hold |
| `Tokenizer.JoinFields` | gec2025.c:354-361 | joining the pieces with commas gives the line back, so the pieces are exactly the text between commas |
| `Tokenizer.NonEmptyKeeps` | gec2025.c:357-360 | a piece is kept exactly when it is one of the pieces and is not empty |
| `Tokenizer.TokensAvoid` | gec2025.c:357-360 | every token `strtok` returns is non-empty, comma-free and free of any character the line does not hold |
| `Tokenizer.TokensLeadingComma` | gec2025.c:357 | a leading comma is skipped, never returned as an empty token |
| `Tokenizer.TokensLeadingRun` | gec2025.c:357-360 | a leading comma-free run is the first token, and scanning resumes after the comma that ends it |
| `Tokenizer.NextToken` | gec2025.c:329-337 | one `strtok` call from a position: either the next token and a strictly later resume position, with the remaining tokens unchanged, or none left |
| `Tokenizer.TokensAtRun` | gec2025.c:357-360 | a non-empty comma-free run starting at a position is the next token, and the following ones start after the comma that ends it |
| `Tokenizer.EmptyFieldShiftsColumns` | gec2025.c:354-361 | in `a,,b` the split has three pieces but the tokens are only `a` and `b`, so `b` moves from column 2 to column 1 |
| `Tokenizer.LastTokenIsSuffix` | gec2025.c:328-329 | a line not ending in a comma has a last token, and it is a non-empty suffix of the line, line ending included |
| `StopLookup.ColumnsOfSnoc` | gec2025.c:333-338 | one more header token moves exactly the columns whose name it equals to its position and leaves the others alone |
| `StopLookup.ResolveHeader` | gec2025.c:326-341 | each column index is the position of the last header token exactly equal to its name, or -1 |
| `StopLookup.LineEndingHidesLastColumn` | gec2025.c:319-341 | the untrimmed header's last token ends in `\n`, so no column is ever found at the last position; a name written last is found only if it also appears earlier |
| `StopLookup.SplitRow` | gec2025.c:353-361 | the array holds, in order, the first 128 tokens of the row (all of them when there are fewer) |
| `StopLookup.StoreTokens` | gec2025.c:358-361 | the loop stores, in order, the tokens that remain until they run out or 128 slots are filled |
| `StopLookup.IdMatch` | gec2025.c:364-365 | the id test: passes only when the query is one of the row's fields, and never when the header has no `stop_id` |
| `StopLookup.NameMatch` | gec2025.c:375-378 | the name test: passes only when the name column is in the row |
| `StopLookup.NameMatchNeedsRoom` | gec2025.c:375-378 | when the name test passes, the query's lower-cased copy, cut to 511 bytes, is no longer than the name's, so a query longer than a short name never matches it |
| `StopLookup.Verdict` | gec2025.c:363-386 | a row matches exactly when the id test or the name test passes, and it matches by id exactly when the id test passes, so the id test takes precedence within the row |
| `StopLookup.MatchRow` | gec2025.c:350-386 | one row's verdict: an id match when the id column is in range and equals the query exactly, else a name match when the name column is in range and its lower-cased 511-byte prefix contains the lower-cased query, else none |
| `StopLookup.FindStopInCsv` | gec2025.c:317-391 | the loop's answer is the search specification: nothing for an empty file, else the first data row that matches |
| `StopLookup.FirstHitIsFirst` | gec2025.c:349-387 | the scan stops at the first matching position and every earlier one fails; it finds nothing only when no position matches |
| `StopLookup.SearchIsFirstMatch` | gec2025.c:347-391 | a row is reported exactly when some data row matches; it is the first matching row; it is reported as an id match exactly when its id equals the query, and otherwise its name matched |
| `StopLookup.EarlierNameMatchWins` | gec2025.c:363-386 | a name match in an earlier row beats an exact id match in a later row |
| `StopLookup.EmptyQueryTakesFirstNamedRow` | gec2025.c:343-386 | an empty query is never an id and is contained in every name, so it matches the first row whose name column is in range, by name |
| `StopLookup.NameMatchIgnoresCase` | gec2025.c:343-379 | two queries that lower-case alike pass or fail the name test together |
| `AncestorPaths.StripDotPrefix` | gec2025.c:42-43 | the result is a suffix of the relative path; it is shorter, by exactly two, exactly when the path starts with `./` or `.\` |
| `AncestorPaths.Candidate` | gec2025.c:65-70 | the candidate has the length of the joined path cut to 1199 bytes; for an empty base it is a prefix of the relative path, all of it when it fits; otherwise it begins with the base and a backslash when they fit, and is the whole joined path when it fits |
| `AncestorPaths.LevelCandidate` | gec2025.c:41-70 | the path tried at a level is below 1200 bytes; it is a prefix of the stripped relative path when the level's base is empty, and otherwise has the joined length cut to 1199 and begins with the base and a backslash when they fit |
| `AncestorPaths.CutAtLastSeparator` | gec2025.c:53-62 | cuts at the last backslash, or at the last slash only when there is no backslash; fails exactly when there is neither |
| `AncestorPaths.CutIsUnique` | gec2025.c:109-114 | there is only one way to cut a path at its last separator |
| `AncestorPaths.Climb` | gec2025.c:52-63 | the in-place truncation loop leaves, after `level` rounds, the level's base `Ancestor(cwd, level)`, stopping early once no separator is left |
| `AncestorPaths.Truncate` | gec2025.c:53-63 | one step up yields a prefix, strictly shorter unless the base is already empty |
| `AncestorPaths.AncestorShrinks` | gec2025.c:46-63 | level `k`'s base is a prefix of the working directory at least `k` characters shorter, and empty from level `len(cwd)` on |
| `AncestorPaths.AncestorStaysEmpty` | gec2025.c:57-60 | once a level's base is empty every later level's is too, so the early `break` changes no result |
| `AncestorPaths.DeepLevelsTryRelAlone` | gec2025.c:46-70 | from level `len(cwd)` on, the candidate is the stripped relative path alone |
| `AncestorPaths.FindFileInAncestors` | gec2025.c:35-84 | fails when the working directory is unknown; otherwise returns the lowest level in `0..max_levels` whose candidate exists, with that candidate, and fails only when no level's candidate exists |
| `AncestorPaths.ExeDir` | gec2025.c:101-118 | fails exactly when the module path is empty, fills `MAX_PATH`, or has no separator; otherwise the part before its last backslash, else before its last slash |

The candidate of a level (`LevelCandidate`) is the relative path with one
leading `./` or `.\` removed, alone when the base is empty, else after the
base and a backslash, cut to the 1199 bytes the `snprintf` buffer holds.

## Left out

- Opening and reading files: `fopen`, `fgets`, `fclose`, and the chain in
  `find_stop_in_csv` that tries the given path, then the ancestors of the
  working directory, then those of the executable's directory with
  `_chdir` (gec2025.c:277-315). The file is a parameter, as its lines; which
  paths exist is a parameter set; `_getcwd` and `GetModuleFileNameA` are
  their results.
- Lines longer than the 4096-byte `fgets` buffer, which `fgets` would split
  into several rows: each given line is taken as one whole row.
- NUL bytes inside a line or a query: lines and the query are C strings.
- Character encodings: one Dafny `char` stands for one byte of a C string,
  and text is taken byte by byte, never decoded. Every length limit in the
  model (the 512-byte lower-case buffers, the 1200-byte candidate,
  `MAX_PATH`) therefore counts bytes, as the C buffers do; a multi-byte
  UTF-8 character is several `char`s here.
- The length limits on copies whose call sites never reach them: `cwd` into
  `base` (1024), the candidate into `outPath` (1200) and the executable's
  directory into `exeDir` (1024). The 1200-byte `candidate` and the two
  512-byte lower-case buffers are modelled.
- `read_line`'s reading of standard input: its end-of-file result, and the
  256-byte buffer `main` passes it (gec2025.c:420-433), with which `fgets`
  returns at most 255 bytes of a longer typed line and leaves the rest for
  the next read. Only the trim of the line it read is modelled.
- Everything printed (`printf`, `fprintf`, `perror`), `readCSVFile` (a debug
  printer), `main` (the prompt loop) and the unused `Stop`, `StopTime` and
  `Trip` structs.
- The values of `stop_lat` and `stop_lon`: their column indices are computed
  but never used.
- Trips, stop times and routes: `gec2025.c` declares `Trip`, `StopTime` and
  `Stop` but builds no trip index, extracts no route between two stops and
  writes no map, so there is nothing of them to model. The id test wins over
  the name test only within one row; across rows the earlier row wins.
