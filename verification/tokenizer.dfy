/**
 * Comma splitting as `strtok(line, ",")` does it. `Fields` is the plain split
 * at every comma (empty fields included); `Tokens` keeps only the non-empty
 * ones, which is what successive `strtok` calls return.
 */
module Tokenizer {
  import opened CStrings

  /** Splits `s` at every comma; `Join` puts the pieces back together. */
  function Fields(s: string): (r: seq<string>)
    ensures |r| >= 1
    decreases |s|
  {
    var k := FirstOf(s, {','});
    if k == |s| then [s] else [s[..k]] + Fields(s[k + 1..])
  }

  function Join(fs: seq<string>): string
  {
    if fs == [] then "" else if |fs| == 1 then fs[0] else fs[0] + "," + Join(fs[1..])
  }

  lemma JoinCons(x: string, fs: seq<string>)
    requires fs != []
    ensures Join([x] + fs) == x + "," + Join(fs)
  {
    assert ([x] + fs)[1..] == fs;
  }

  /** The elements of `fs` that are not empty, in order. */
  function NonEmpty(fs: seq<string>): seq<string>
  {
    if fs == [] then []
    else (if fs[0] == "" then [] else [fs[0]]) + NonEmpty(fs[1..])
  }

  /** What successive `strtok(.., ",")` calls return for `s`, in order. */
  function Tokens(s: string): seq<string>
  {
    NonEmpty(Fields(s))
  }

  /** Every field avoids every character the line avoids; none holds a comma. */
  lemma {:induction false} FieldsAvoid(s: string, c: char)
    requires c !in s || c == ','
    ensures forall f :: f in Fields(s) ==> c !in f
    decreases |s|
  {
    var k := FirstOf(s, {','});
    if k < |s| {
      assert c != ',' ==> c !in s[k + 1..];
      FieldsAvoid(s[k + 1..], c);
      assert Fields(s) == [s[..k]] + Fields(s[k + 1..]);
    }
  }

  /** `NonEmpty` keeps exactly the non-empty elements. */
  lemma {:induction false} NonEmptyKeeps(fs: seq<string>)
    ensures forall t :: t in NonEmpty(fs) <==> t in fs && t != ""
  {
    if fs != [] {
      NonEmptyKeeps(fs[1..]);
      assert fs == [fs[0]] + fs[1..];
    }
  }

  /** Every token is non-empty and avoids the comma and every character the line avoids. */
  lemma TokensAvoid(s: string, c: char)
    requires c !in s || c == ','
    ensures forall t :: t in Tokens(s) ==> t != "" && c !in t
  {
    FieldsAvoid(s, c);
    NonEmptyKeeps(Fields(s));
  }

  lemma {:induction false} JoinFields(s: string)
    ensures Join(Fields(s)) == s
    decreases |s|
  {
    var k := FirstOf(s, {','});
    if k < |s| {
      var rest := s[k + 1..];
      var f := Fields(rest);
      JoinFields(rest);
      assert Fields(s) == [s[..k]] + f;
      JoinCons(s[..k], f);
      assert s == s[..k] + "," + rest;
    }
  }

  lemma NonEmptyCons(f: string, fs: seq<string>)
    ensures NonEmpty([f] + fs) == (if f == "" then [] else [f]) + NonEmpty(fs)
  {
    assert ([f] + fs)[1..] == fs;
  }

  lemma TokensEmpty()
    ensures Tokens("") == []
  {
    assert Fields("") == [""];
    NonEmptyCons("", []);
  }

  /** A comma in front of the rest is skipped: `strtok` never returns "". */
  lemma TokensLeadingComma(s: string)
    requires |s| > 0 && s[0] == ','
    ensures Tokens(s) == Tokens(s[1..])
  {
    assert FirstOf(s, {','}) == 0;
    assert Fields(s) == [""] + Fields(s[1..]);
    NonEmptyCons("", Fields(s[1..]));
  }

  /**
   * A non-empty comma-free run at the front of `s` is the first token; the
   * scan resumes after the comma that ends it.
   */
  lemma TokensLeadingRun(s: string, end: nat)
    requires 0 < end <= |s|
    requires forall j :: 0 <= j < end ==> s[j] != ','
    requires end < |s| ==> s[end] == ','
    ensures Tokens(s) == [s[..end]] + Tokens(s[(if end < |s| then end + 1 else end)..])
  {
    var k := FirstOf(s, {','});
    assert k == end;
    if end == |s| {
      assert Fields(s) == [s];
      NonEmptyCons(s, []);
      assert [s] + [] == [s];
      assert s[..end] == s;
      TokensEmpty();
    } else {
      assert Fields(s) == [s[..end]] + Fields(s[end + 1..]);
      NonEmptyCons(s[..end], Fields(s[end + 1..]));
    }
  }

  /**
   * One `strtok(.., ",")` call resuming at `pos`: it skips commas, then
   * returns the run up to the next comma (or the end) and the position where
   * the following call resumes; it finds nothing once only commas are left.
   */
  method NextToken(s: string, pos: nat) returns (found: bool, tok: string, next: nat)
    requires pos <= |s|
    ensures pos <= next <= |s|
    ensures found ==> pos < next && Tokens(s[pos..]) == [tok] + Tokens(s[next..])
    ensures !found ==> next == |s| && Tokens(s[pos..]) == []
  {
    var start := pos;
    while start < |s| && s[start] == ','
      invariant pos <= start <= |s|
      invariant Tokens(s[pos..]) == Tokens(s[start..])
    {
      TokensLeadingComma(s[start..]);
      assert s[start..][1..] == s[start + 1..];
      start := start + 1;
    }
    if start == |s| {
      TokensEmpty();
      return false, "", |s|;
    }
    var end := start + 1;
    while end < |s| && s[end] != ','
      invariant start < end <= |s|
      invariant forall j :: start <= j < end ==> s[j] != ','
    {
      end := end + 1;
    }
    found, tok := true, s[start..end];
    next := if end < |s| then end + 1 else end;
    TokensAtRun(s, start, end);
  }

  lemma TokensAtRun(s: string, start: nat, end: nat)
    requires start < end <= |s|
    requires forall j :: start <= j < end ==> s[j] != ','
    requires end < |s| ==> s[end] == ','
    ensures Tokens(s[start..]) == [s[start..end]] + Tokens(s[(if end < |s| then end + 1 else end)..])
  {
    var t := s[start..];
    TokensLeadingRun(t, end - start);
    assert t[..end - start] == s[start..end];
    assert t[(if end - start < |t| then end - start + 1 else end - start)..]
        == s[(if end < |s| then end + 1 else end)..];
  }

  /** Empty fields vanish, so the fields after them move one column left. */
  lemma EmptyFieldShiftsColumns(a: string, b: string)
    requires a != "" && b != ""
    requires ',' !in a && ',' !in b
    ensures Fields(a + ",," + b) == [a, "", b]
    ensures Tokens(a + ",," + b) == [a, b]
  {
    var rest := [""] + [b];
    FieldsOfGap(a, b);
    assert [a] + rest == [a, "", b];
    NonEmptyOfGap(a, b);
  }

  lemma FieldsOfGap(a: string, b: string)
    requires ',' !in a && ',' !in b
    ensures Fields(a + ",," + b) == [a] + ([""] + [b])
  {
    var s := a + ",," + b;
    assert s[..|a|] == a && s[|a|] == ',' && s[|a| + 1..] == "," + b;
    assert forall j :: 0 <= j < |a| ==> s[j] == a[j];
    FieldsAtComma(s, |a|);
    var s1 := "," + b;
    assert s1[..0] == "" && s1[1..] == b;
    FieldsAtComma(s1, 0);
    FieldsWhole(b);
  }

  lemma NonEmptyOfGap(a: string, b: string)
    requires a != "" && b != ""
    ensures NonEmpty([a] + ([""] + [b])) == [a, b]
  {
    NonEmptyCons(b, []);
    NonEmptyCons("", [b]);
    NonEmptyCons(a, [""] + [b]);
  }

  /** A comma-free prefix followed by a comma is the first field. */
  lemma FieldsAtComma(s: string, k: nat)
    requires k < |s| && s[k] == ','
    requires forall j :: 0 <= j < k ==> s[j] != ','
    ensures Fields(s) == [s[..k]] + Fields(s[k + 1..])
  {
    assert FirstOf(s, {','}) == k;
  }

  /** A string without commas is a single field. */
  lemma FieldsWhole(s: string)
    requires ',' !in s
    ensures Fields(s) == [s]
  {
  }


  /**
   * When `s` does not end in a comma, its last token is its last field, a
   * non-empty suffix of `s`: a trailing line ending stays part of it.
   */
  lemma {:induction false} LastTokenIsSuffix(s: string)
    requires |s| > 0 && s[|s| - 1] != ','
    ensures |Tokens(s)| > 0
    ensures var t := Tokens(s)[|Tokens(s)| - 1]; 0 < |t| <= |s| && t == s[|s| - |t|..]
    decreases |s|
  {
    var k := FirstOf(s, {','});
    if k == |s| {
      assert Fields(s) == [s];
      NonEmptyCons(s, []);
      assert [s] + [] == [s];
    } else {
      var rest := s[k + 1..];
      assert |rest| > 0 && rest[|rest| - 1] == s[|s| - 1];
      LastTokenIsSuffix(rest);
      assert Fields(s) == [s[..k]] + Fields(rest);
      NonEmptyCons(s[..k], Fields(rest));
      var t := Tokens(rest)[|Tokens(rest)| - 1];
      assert Tokens(s)[|Tokens(s)| - 1] == t;
      assert s[|s| - |t|..] == rest[|rest| - |t|..];
    }
  }
}
