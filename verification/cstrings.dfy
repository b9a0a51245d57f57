/**
 * The C library behaviour the stop lookup relies on, over strings modelled as
 * `seq<char>` without their NUL terminator: `tolower` in the "C" locale,
 * `strrchr`, `strcspn`, `strstr`, reading a NUL-terminated string back out of a
 * fixed buffer, and the program's own `str_to_lower_copy`.
 *
 * One `char` stands for one byte of the C string: text is taken byte by byte,
 * never decoded, so every length here (the 512-byte lower-case buffers, the
 * 1200-byte candidate path, `MAX_PATH`) counts bytes, as in C.
 */
module CStrings {

  function Min(a: int, b: int): int { if a <= b then a else b }

  /** The first `n` elements of `s`, or all of `s` when it is shorter. */
  function Take<T>(s: seq<T>, n: nat): (r: seq<T>)
    ensures |r| == Min(|s|, n) && r == s[..|r|]
  {
    if |s| <= n then s else s[..n]
  }

  /** `tolower` in the "C" locale: only 'A'..'Z' change. */
  function Lower(c: char): char
  {
    if 'A' <= c <= 'Z' then (c as int - 'A' as int + 'a' as int) as char else c
  }

  /** Every character lower-cased, position by position. */
  function ToLower(s: string): (r: string)
    ensures |r| == |s|
    ensures forall i :: 0 <= i < |s| ==> r[i] == Lower(s[i])
  {
    if s == [] then [] else [Lower(s[0])] + ToLower(s[1..])
  }

  /**
   * The string `str_to_lower_copy(s, dest, size)` leaves in `dest`: the first
   * `size - 1` bytes of `s` at most, each lower-cased.
   */
  function LowerCopy(s: string, size: nat): (r: string)
    requires size >= 1
    ensures |r| == Min(|s|, size - 1)
    ensures forall i :: 0 <= i < |r| ==> r[i] == Lower(s[i])
  {
    ToLower(Take(s, size - 1))
  }

  /**
   * `strcspn`: the length of the longest prefix of `s` holding no character
   * of `stops`.
   */
  function FirstOf(s: string, stops: set<char>): (r: nat)
    ensures r <= |s|
    ensures forall j :: 0 <= j < r ==> s[j] !in stops
    ensures r < |s| ==> s[r] in stops
  {
    if s == [] || s[0] in stops then 0 else 1 + FirstOf(s[1..], stops)
  }

  /**
   * `strrchr` (and, over tokens, "the last column with this name"): the
   * position of the last `x` in `s`, or -1 when there is none.
   */
  function LastIndex<T(==)>(s: seq<T>, x: T): (r: int)
    ensures -1 <= r < |s|
    ensures r == -1 <==> x !in s
    ensures r >= 0 ==> s[r] == x && forall j :: r < j < |s| ==> s[j] != x
  {
    if s == [] then -1
    else if s[|s| - 1] == x then |s| - 1
    else LastIndex(s[..|s| - 1], x)
  }

  lemma TakeSnoc<T>(s: seq<T>, n: nat)
    requires n < |s|
    ensures s[..n + 1] == s[..n] + [s[n]]
  {
  }

  /** Peeling the next element off a suffix. */
  lemma Uncons<T>(s: seq<T>, n: nat, x: T, rest: seq<T>)
    requires n <= |s| && s[n..] == [x] + rest
    ensures n < |s| && s[n] == x && s[n + 1..] == rest
  {
    assert s[n..][0] == x;
    assert s[n..][1..] == rest;
  }

  lemma LastIndexSnoc<T>(s: seq<T>, y: T, x: T)
    ensures LastIndex(s + [y], x) == if y == x then |s| else LastIndex(s, x)
  {
    assert (s + [y])[..|s|] == s;
  }

  /** `strstr(hay, needle) != NULL`: `needle` occurs somewhere in `hay`. */
  predicate Contains(hay: string, needle: string)
  {
    exists i :: 0 <= i <= |hay| && needle <= hay[i..]
  }

  /** The NUL-terminated string held in a character buffer. */
  function CStr(buf: seq<char>): (r: string)
    ensures '\0' !in r && r <= buf
    ensures |r| < |buf| ==> buf[|r|] == '\0'
  {
    buf[..FirstOf(buf, {'\0'})]
  }

  /**
   * The trim of `read_line` and of each data row: cut at the first carriage
   * return or line feed.
   */
  function StripEol(s: string): (r: string)
    ensures r <= s
    ensures '\r' !in r && '\n' !in r
    ensures |r| < |s| ==> s[|r|] == '\r' || s[|r|] == '\n'
  {
    s[..FirstOf(s, {'\r', '\n'})]
  }

  lemma {:induction false} ToLowerIdempotent(s: string)
    ensures ToLower(ToLower(s)) == ToLower(s)
    ensures forall i :: 0 <= i < |s| ==> !('A' <= ToLower(s)[i] <= 'Z')
  {
    if s != [] {
      ToLowerIdempotent(s[1..]);
      assert ToLower(s)[1..] == ToLower(s[1..]);
    }
  }

  /**
   * `str_to_lower_copy`: copies `src` lower-cased into `dest` until `src`
   * ends or only the terminator's cell is left, then writes the terminator.
   * Cells after the terminator keep their contents.
   */
  method StrToLowerCopy(src: string, dest: array<char>)
    requires dest.Length >= 1
    requires '\0' !in src
    modifies dest
    ensures dest[..Min(|src|, dest.Length - 1)] == LowerCopy(src, dest.Length)
    ensures dest[Min(|src|, dest.Length - 1)] == '\0'
    ensures forall j :: Min(|src|, dest.Length - 1) < j < dest.Length ==> dest[j] == old(dest[j])
    ensures CStr(dest[..]) == LowerCopy(src, dest.Length)
  {
    var i := 0;
    while i + 1 < dest.Length && i < |src|
      invariant 0 <= i <= Min(|src|, dest.Length - 1)
      invariant forall j :: 0 <= j < i ==> dest[j] == Lower(src[j])
      invariant forall j :: i <= j < dest.Length ==> dest[j] == old(dest[j])
    {
      dest[i] := Lower(src[i]);
      i := i + 1;
    }
    dest[i] := '\0';
    ghost var want := LowerCopy(src, dest.Length);
    assert dest[..i] == want;
    assert forall j :: 0 <= j < i ==> dest[..][j] != '\0';
    assert FirstOf(dest[..], {'\0'}) == i;
  }
}
