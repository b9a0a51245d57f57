/**
 * The stop lookup of `find_stop_in_csv`. The stops file is given as the
 * sequence of lines `fgets` returns, each still ending in its line feed: the
 * first is the header, the rest are data rows. The header's tokens decide the
 * column of `stop_id`, `stop_name`, `stop_lat` and `stop_lon`; then the rows
 * are scanned in file order and the first one whose id equals the query, or
 * whose lower-cased name contains the lower-cased query, is the answer.
 */
module StopLookup {
  import opened Wrappers
  import opened CStrings
  import opened Tokenizer

  /** Size of the `fields` array a data row is split into. */
  const MaxFields: nat := 128
  /** Size of the `qlower` and `nameLower` buffers. */
  const LowerBufSize: nat := 512

  /** Column positions from the header; -1 when the column was not found. */
  datatype Columns = Columns(id: int, name: int, lat: int, lon: int)

  /** How a row matched: exact id, or name containing the query. */
  datatype MatchKind = ById | ByName

  /**
   * The outcome of one search. `find_stop_in_csv` returns 1 exactly for
   * `Found`; `row` (0 is the first data row) and `how` identify the row and the
   * test that it reports.
   */
  datatype Lookup = NotFound | Found(row: nat, how: MatchKind)

  /** Each column's index: the last of the tokens equal to its name. */
  function ColumnsOf(toks: seq<string>): Columns
  {
    Columns(LastIndex(toks, "stop_id"), LastIndex(toks, "stop_name"),
            LastIndex(toks, "stop_lat"), LastIndex(toks, "stop_lon"))
  }

  /** The column indices the header line gives, line ending included. */
  function HeaderColumns(header: string): Columns
  {
    ColumnsOf(Tokens(header))
  }

  /** The four tests of the header loop's body for the token at `idx`. */
  function NoteColumn(cols: Columns, tok: string, idx: int): Columns
  {
    Columns(if tok == "stop_id" then idx else cols.id,
            if tok == "stop_name" then idx else cols.name,
            if tok == "stop_lat" then idx else cols.lat,
            if tok == "stop_lon" then idx else cols.lon)
  }

  /** One more header token moves the index of the column it names, and only that one. */
  lemma ColumnsOfSnoc(toks: seq<string>, tok: string)
    ensures ColumnsOf(toks + [tok]) == NoteColumn(ColumnsOf(toks), tok, |toks|)
  {
    LastIndexSnoc(toks, tok, "stop_id");
    LastIndexSnoc(toks, tok, "stop_name");
    LastIndexSnoc(toks, tok, "stop_lat");
    LastIndexSnoc(toks, tok, "stop_lon");
  }

  /** The fields of a data row: line ending cut, at most 128 tokens. */
  function Row(line: string): seq<string>
  {
    Take(Tokens(StripEol(line)), MaxFields)
  }

  /** The id test: the id column is in the row and equals the query exactly. */
  predicate IdMatch(fields: seq<string>, cols: Columns, query: string)
    ensures IdMatch(fields, cols, query) ==> query in fields
    ensures cols.id < 0 ==> !IdMatch(fields, cols, query)
  {
    0 <= cols.id < |fields| && fields[cols.id] == query
  }

  /**
   * The name test: the name column is in the row and its lower-cased copy
   * contains the lower-cased query, both cut to 511 bytes by their buffers.
   */
  predicate NameMatch(fields: seq<string>, cols: Columns, query: string)
    ensures NameMatch(fields, cols, query) ==> 0 <= cols.name < |fields|
  {
    0 <= cols.name < |fields|
    && Contains(LowerCopy(fields[cols.name], LowerBufSize), LowerCopy(query, LowerBufSize))
  }

  /**
   * A name can only contain a query whose lower-cased copy is no longer than
   * its own: a query longer than a name shorter than 511 bytes never matches it.
   */
  lemma NameMatchNeedsRoom(fields: seq<string>, cols: Columns, query: string)
    requires NameMatch(fields, cols, query)
    ensures Min(|query|, LowerBufSize - 1) <= Min(|fields[cols.name]|, LowerBufSize - 1)
  {
  }

  /** The decision for one row: the id test first, then the name test. */
  function Verdict(fields: seq<string>, cols: Columns, query: string): (v: Option<MatchKind>)
    ensures v.Some? <==> IdMatch(fields, cols, query) || NameMatch(fields, cols, query)
    ensures v == Some(ById) <==> IdMatch(fields, cols, query)
  {
    if IdMatch(fields, cols, query) then Some(ById)
    else if NameMatch(fields, cols, query) then Some(ByName)
    else None
  }

  function RowVerdict(line: string, cols: Columns, query: string): Option<MatchKind>
  {
    Verdict(Row(line), cols, query)
  }

  /** The verdict of every row, in file order. */
  function Verdicts(rows: seq<string>, cols: Columns, query: string): (vs: seq<Option<MatchKind>>)
    ensures |vs| == |rows|
  {
    seq(|rows|, k requires 0 <= k < |rows| => RowVerdict(rows[k], cols, query))
  }

  lemma VerdictsAt(rows: seq<string>, cols: Columns, query: string, k: nat)
    requires k < |rows|
    ensures Verdicts(rows, cols, query)[k] == RowVerdict(rows[k], cols, query)
  {
  }

  /** The verdicts from `i` on, scanned in order until one is a match. */
  function FirstHit(vs: seq<Option<MatchKind>>, i: nat): Lookup
    requires i <= |vs|
    decreases |vs| - i
  {
    if i == |vs| then NotFound
    else match vs[i]
      case Some(m) => Found(i, m)
      case None => FirstHit(vs, i + 1)
  }

  function DataRows(lines: seq<string>): seq<string>
  {
    if lines == [] then [] else lines[1..]
  }

  function FileColumns(lines: seq<string>): Columns
  {
    if lines == [] then Columns(-1, -1, -1, -1) else HeaderColumns(lines[0])
  }

  /** The search over a whole file; a file without a header line finds nothing. */
  function Search(lines: seq<string>, query: string): Lookup
  {
    if lines == [] then NotFound else FirstHit(Verdicts(DataRows(lines), FileColumns(lines), query), 0)
  }

  /** Every line and the query are C strings: they hold no NUL. */
  predicate NoNul(lines: seq<string>)
  {
    forall i :: 0 <= i < |lines| ==> '\0' !in lines[i]
  }

  /**
   * The header loop: walks the header's tokens with `strtok` and records, for
   * each column name, the position of every token equal to it, so the last
   * such position wins.
   */
  method ResolveHeader(header: string) returns (cols: Columns)
    ensures cols == HeaderColumns(header)
  {
    ghost var toks := Tokens(header);
    cols := Columns(-1, -1, -1, -1);
    var found: bool, tok: string, pos: nat := NextToken(header, 0);
    assert header[0..] == header;
    if found {
      Uncons(toks, 0, tok, Tokens(header[pos..]));
    }
    var idx := 0;
    while found
      invariant pos <= |header| && idx <= |toks|
      invariant found ==> idx < |toks| && tok == toks[idx] && Tokens(header[pos..]) == toks[idx + 1..]
      invariant !found ==> idx == |toks|
      invariant cols == ColumnsOf(toks[..idx])
      decreases |header| - pos, found
    {
      cols := NoteColumn(cols, tok, idx);
      TakeSnoc(toks, idx);
      ColumnsOfSnoc(toks[..idx], tok);
      idx := idx + 1;
      found, tok, pos := NextToken(header, pos);
      if found {
        Uncons(toks, idx, tok, Tokens(header[pos..]));
      }
    }
    assert toks[..idx] == toks;
  }

  /**
   * The row split: `strtok` tokens stored into a fresh 128-slot array until
   * the tokens run out or the array is full; `fc` is how many were stored.
   */
  method SplitRow(line: string) returns (fields: array<string>, fc: nat)
    ensures fresh(fields) && fields.Length == MaxFields
    ensures fc <= MaxFields && fields[..fc] == Take(Tokens(line), MaxFields)
  {
    fields := new string[MaxFields];
    var found: bool, tok: string, pos: nat := NextToken(line, 0);
    assert line[0..] == line;
    NextTokenAt(Tokens(line), 0, Tokens(line), found, tok, Tokens(line[pos..]));
    fc := StoreTokens(line, fields, found, tok, pos);
  }

  /**
   * The `while (t && fc < 128)` loop of the row split: store the pending
   * token and ask `strtok` for the next one until the tokens run out or all
   * 128 slots are used.
   */
  method StoreTokens(line: string, fields: array<string>, found: bool, tok: string, pos: nat)
    returns (fc: nat)
    requires fields.Length == MaxFields && pos <= |line|
    requires found ==> Tokens(line) != [] && tok == Tokens(line)[0] && Tokens(line[pos..]) == Tokens(line)[1..]
    requires !found ==> Tokens(line) == []
    modifies fields
    ensures fc <= MaxFields && fields[..fc] == Take(Tokens(line), MaxFields)
  {
    ghost var toks := Tokens(line);
    fc := 0;
    var more: bool, t: string, p: nat := found, tok, pos;
    while more && fc < MaxFields
      invariant fc <= MaxFields && p <= |line| && fc <= |toks|
      invariant forall j :: 0 <= j < fc ==> fields[j] == toks[j]
      invariant more ==> fc < |toks| && t == toks[fc] && Tokens(line[p..]) == toks[fc + 1..]
      invariant !more ==> fc == |toks|
      decreases MaxFields - fc
    {
      fields[fc] := t;
      fc := fc + 1;
      ghost var rest := Tokens(line[p..]);
      more, t, p := NextToken(line, p);
      NextTokenAt(toks, fc, rest, more, t, Tokens(line[p..]));
    }
    SamePointwise(fields[..fc], Take(toks, MaxFields));
  }

  /** Reads one `NextToken` result as the token at index `n` of `toks`. */
  lemma NextTokenAt(toks: seq<string>, n: nat, rest: seq<string>, found: bool, tok: string, after: seq<string>)
    requires n <= |toks| && rest == toks[n..]
    requires found ==> rest == [tok] + after
    requires !found ==> rest == []
    ensures found ==> n < |toks| && tok == toks[n] && after == toks[n + 1..]
    ensures !found ==> n == |toks|
  {
    if found {
      Uncons(toks, n, tok, after);
    }
  }

  lemma SamePointwise<T>(a: seq<T>, b: seq<T>)
    requires |a| == |b| && forall j :: 0 <= j < |a| ==> a[j] == b[j]
    ensures a == b
  {
  }

  /**
   * `find_stop_in_csv` once the file is open: resolve the header, lower-case
   * the query into a 512-byte buffer, then split each data row and try the id
   * column against the query as typed and the lower-cased name column against
   * the lower-cased query, stopping at the first row that passes either test.
   */
  method FindStopInCsv(lines: seq<string>, query: string) returns (r: Lookup)
    requires NoNul(lines) && '\0' !in query
    ensures r == Search(lines, query)
  {
    if |lines| == 0 {
      return NotFound;
    }
    var cols := ResolveHeader(lines[0]);
    var qlower := new char[LowerBufSize];
    StrToLowerCopy(query, qlower);
    ghost var rows := DataRows(lines);
    ghost var vs := Verdicts(rows, cols, query);
    assert Search(lines, query) == FirstHit(vs, 0);
    var i := 1;
    while i < |lines|
      invariant 1 <= i <= |lines|
      invariant rows == lines[1..] && |vs| == |rows|
      invariant Search(lines, query) == FirstHit(vs, i - 1)
      invariant CStr(qlower[..]) == LowerCopy(query, LowerBufSize)
    {
      var v := MatchRow(lines[i], cols, query, qlower);
      assert rows[i - 1] == lines[i];
      VerdictsAt(rows, cols, query, i - 1);
      FirstHitStep(vs, i - 1);
      if v.Some? {
        return Found(i - 1, v.value);
      }
      i := i + 1;
    }
    return NotFound;
  }

  /**
   * The body of the row loop: strip the line ending, split, then the id test
   * on the query as typed and, failing that, the name test on the lower-cased
   * name (copied into a fresh 512-byte buffer) against `qlower`.
   */
  method MatchRow(line: string, cols: Columns, query: string, qlower: array<char>)
    returns (v: Option<MatchKind>)
    requires '\0' !in line
    requires CStr(qlower[..]) == LowerCopy(query, LowerBufSize)
    ensures v == RowVerdict(line, cols, query)
  {
    var stripped := StripEol(line);
    var fields, fc := SplitRow(stripped);
    ghost var row := Row(line);
    assert fields[..fc] == row;
    if 0 <= cols.id < fc && fields[cols.id] == query {
      assert IdMatch(row, cols, query);
      return Some(ById);
    }
    assert !IdMatch(row, cols, query);
    if 0 <= cols.name < fc {
      var nameLower := new char[LowerBufSize];
      NoNulInTokens(line);
      assert fields[cols.name] in Tokens(stripped);
      StrToLowerCopy(fields[cols.name], nameLower);
      if Contains(CStr(nameLower[..]), CStr(qlower[..])) {
        assert NameMatch(row, cols, query);
        return Some(ByName);
      }
    }
    assert !NameMatch(row, cols, query);
    return None;
  }

  lemma NoNulInTokens(line: string)
    requires '\0' !in line
    ensures forall t :: t in Tokens(StripEol(line)) ==> '\0' !in t
  {
    var s := StripEol(line);
    assert forall j :: 0 <= j < |s| ==> s[j] == line[j];
    TokensAvoid(s, '\0');
  }

  lemma FirstHitStep(vs: seq<Option<MatchKind>>, i: nat)
    requires i < |vs|
    ensures FirstHit(vs, i) == if vs[i].Some? then Found(i, vs[i].value) else FirstHit(vs, i + 1)
  {
  }

  /** Scanning from position `i` stops at the first match, if any. */
  lemma {:induction false} FirstHitIsFirst(vs: seq<Option<MatchKind>>, i: nat)
    requires i <= |vs|
    ensures FirstHit(vs, i).NotFound? ==> forall k :: i <= k < |vs| ==> vs[k].None?
    ensures FirstHit(vs, i).Found? ==>
      var k := FirstHit(vs, i).row;
      i <= k < |vs| && vs[k] == Some(FirstHit(vs, i).how)
      && forall j :: i <= j < k ==> vs[j].None?
    decreases |vs| - i
  {
    if i < |vs| && vs[i].None? {
      FirstHitIsFirst(vs, i + 1);
    }
  }

  /**
   * The search reports a row exactly when some data row matches, and the row
   * it reports is the first one in file order that matches; within that row
   * the id test is decided before the name test.
   */
  lemma SearchIsFirstMatch(lines: seq<string>, query: string)
    ensures lines == [] ==> Search(lines, query) == NotFound
    ensures Search(lines, query).Found? <==>
      exists k :: 0 <= k < |DataRows(lines)| && RowVerdict(DataRows(lines)[k], FileColumns(lines), query).Some?
    ensures Search(lines, query).Found? ==>
      var k, rows, cols := Search(lines, query).row, DataRows(lines), FileColumns(lines);
      k < |rows|
      && (forall j :: 0 <= j < k ==> RowVerdict(rows[j], cols, query).None?)
      && (Search(lines, query).how == ById <==> IdMatch(Row(rows[k]), cols, query))
      && (Search(lines, query).how == ByName ==> NameMatch(Row(rows[k]), cols, query))
  {
    if lines != [] {
      var rows, cols := DataRows(lines), FileColumns(lines);
      forall k | 0 <= k < |rows| ensures Verdicts(rows, cols, query)[k] == RowVerdict(rows[k], cols, query) {
        VerdictsAt(rows, cols, query, k);
      }
      FirstHitIsFirst(Verdicts(rows, cols, query), 0);
    }
  }

  /**
   * Precedence is per row, not global: a name hit in an earlier row beats an
   * exact id hit in a later row.
   */
  lemma EarlierNameMatchWins(lines: seq<string>, query: string, i: nat, j: nat)
    requires i < j < |DataRows(lines)|
    requires NameMatch(Row(DataRows(lines)[i]), FileColumns(lines), query)
    requires IdMatch(Row(DataRows(lines)[j]), FileColumns(lines), query)
    ensures Search(lines, query).Found? && Search(lines, query).row <= i
  {
    var rows, cols := DataRows(lines), FileColumns(lines);
    var vs := Verdicts(rows, cols, query);
    VerdictsAt(rows, cols, query, i);
    assert vs[i].Some?;
    FirstHitIsFirst(vs, 0);
  }

  /**
   * An empty query is never an id (tokens are never empty) but is contained
   * in every name: the first row whose name column is in range matches.
   */
  lemma EmptyQueryTakesFirstNamedRow(lines: seq<string>)
    ensures var rows, cols := DataRows(lines), FileColumns(lines);
      match Search(lines, "")
      case NotFound => forall k :: 0 <= k < |rows| ==> !(0 <= cols.name < |Row(rows[k])|)
      case Found(k, m) =>
        m == ByName && k < |rows| && 0 <= cols.name < |Row(rows[k])|
        && forall j :: 0 <= j < k ==> !(0 <= cols.name < |Row(rows[j])|)
  {
    if lines != [] {
      var rows, cols := DataRows(lines), FileColumns(lines);
      var vs := Verdicts(rows, cols, "");
      forall k | 0 <= k < |rows|
        ensures vs[k] == if 0 <= cols.name < |Row(rows[k])| then Some(ByName) else None
      {
        VerdictsAt(rows, cols, "", k);
        EmptyQueryVerdict(rows[k], cols);
      }
      FirstHitIsFirst(vs, 0);
    }
  }

  lemma EmptyQueryVerdict(line: string, cols: Columns)
    ensures RowVerdict(line, cols, "") == if 0 <= cols.name < |Row(line)| then Some(ByName) else None
  {
    var fields := Row(line);
    if 0 <= cols.id < |fields| {
      TokensAvoid(StripEol(line), ',');
      assert fields[cols.id] in Tokens(StripEol(line));
    }
    assert !IdMatch(fields, cols, "");
    if 0 <= cols.name < |fields| {
      var hay := LowerCopy(fields[cols.name], LowerBufSize);
      assert LowerCopy("", LowerBufSize) == "";
      assert "" <= hay[0..];
    }
  }

  /** The name test ignores the case of the query; the id test does not. */
  lemma NameMatchIgnoresCase(fields: seq<string>, cols: Columns, q1: string, q2: string)
    requires ToLower(q1) == ToLower(q2)
    ensures NameMatch(fields, cols, q1) == NameMatch(fields, cols, q2)
  {
    assert |q1| == |q2|;
    var l1, l2 := LowerCopy(q1, LowerBufSize), LowerCopy(q2, LowerBufSize);
    assert |l1| == |l2|;
    forall i | 0 <= i < |l1| ensures l1[i] == l2[i] {
      assert ToLower(q1)[i] == ToLower(q2)[i];
    }
  }

  /**
   * The header keeps its line ending, so its last token carries it and never
   * equals a column name: a column written last in the header is not found.
   */
  lemma LineEndingHidesLastColumn(header: string, name: string)
    requires |header| > 0 && header[|header| - 1] == '\n'
    requires '\n' !in name
    ensures |Tokens(header)| > 0
    ensures LastIndex(Tokens(header), name) != |Tokens(header)| - 1
  {
    LastTokenIsSuffix(header);
    var toks := Tokens(header);
    var t := toks[|toks| - 1];
    assert t[|t| - 1] == '\n';
    assert t != name;
  }
}
