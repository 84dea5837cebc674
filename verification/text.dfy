/** The string operations of Rust's `str` that the probing rules rely on:
    `trim`, `trim_end_matches('/')`, `starts_with`, `contains` and
    `splitn(2, ':')`. Strings are sequences of Unicode scalar values. */
module Text {
  import opened Results

  /** Rust's `char::is_whitespace`: the Unicode White_Space property. */
  predicate IsWhitespace(c: char)
    ensures IsWhitespace(c) ==> c != '/' && c != ':' && c != '#' && c != '.'
  {
    || ('\t' <= c <= '\r')
    || c == ' '
    || c == '\U{85}'
    || c == '\U{A0}'
    || c == '\U{1680}'
    || ('\U{2000}' <= c <= '\U{200A}')
    || c == '\U{2028}'
    || c == '\U{2029}'
    || c == '\U{202F}'
    || c == '\U{205F}'
    || c == '\U{3000}'
  }

  predicate StartsWith(s: string, prefix: string) {
    |prefix| <= |s| && s[..|prefix|] == prefix
  }

  predicate AllSlashes(s: string) {
    forall i :: 0 <= i < |s| ==> s[i] == '/'
  }

  predicate AllWhitespace(s: string) {
    forall i :: 0 <= i < |s| ==> IsWhitespace(s[i])
  }

  /** `s.trim_end_matches('/')`: the longest prefix of `s` that does not end in '/';
      everything cut off is slashes. */
  function TrimEndSlashes(s: string): (r: string)
    ensures |r| <= |s| && r == s[..|r|]
    ensures r == [] || r[|r| - 1] != '/'
    ensures AllSlashes(s[|r|..])
  {
    if s != [] && s[|s| - 1] == '/' then
      var r := TrimEndSlashes(s[..|s| - 1]);
      assert s[|r|..] == s[..|s| - 1][|r|..] + [s[|s| - 1]];
      r
    else s
  }

  /** The three properties above pin the result down: any split of `s` into a part
      that does not end in '/' and a run of slashes is the one `TrimEndSlashes` makes. */
  lemma {:induction false} TrimEndSlashesUnique(p: string, q: string)
    requires p == [] || p[|p| - 1] != '/'
    requires AllSlashes(q)
    ensures TrimEndSlashes(p + q) == p
  {
    if q == [] {
      assert p + q == p;
    } else {
      assert (p + q)[..|p + q| - 1] == p + q[..|q| - 1];
      TrimEndSlashesUnique(p, q[..|q| - 1]);
    }
  }

  lemma TrimEndSlashesIdempotent(s: string)
    ensures TrimEndSlashes(TrimEndSlashes(s)) == TrimEndSlashes(s)
  {
    TrimEndSlashesUnique(TrimEndSlashes(s), []);
    assert TrimEndSlashes(s) + [] == TrimEndSlashes(s);
  }

  /** `s.trim_start()`: the longest suffix of `s` that does not start with whitespace. */
  function TrimStart(s: string): (r: string)
    ensures |r| <= |s|
    ensures r == [] || !IsWhitespace(r[0])
  {
    if s != [] && IsWhitespace(s[0]) then TrimStart(s[1..]) else s
  }

  lemma {:induction false} TrimStartIsSuffix(s: string)
    ensures TrimStart(s) == s[|s| - |TrimStart(s)|..]
  {
    if s != [] && IsWhitespace(s[0]) {
      TrimStartIsSuffix(s[1..]);
    }
  }

  /** What `trim_start` cuts off is whitespace. */
  lemma {:induction false} TrimStartCutsWhitespace(s: string)
    ensures AllWhitespace(s[..|s| - |TrimStart(s)|])
  {
    if s != [] && IsWhitespace(s[0]) {
      TrimStartCutsWhitespace(s[1..]);
      assert s[..|s| - |TrimStart(s)|] == [s[0]] + s[1..][..|s| - 1 - |TrimStart(s[1..])|];
    }
  }

  /** `s.trim_end()`: the longest prefix of `s` that does not end in whitespace. */
  function TrimEnd(s: string): (r: string)
    ensures |r| <= |s|
    ensures r == [] || !IsWhitespace(r[|r| - 1])
  {
    if s != [] && IsWhitespace(s[|s| - 1]) then TrimEnd(s[..|s| - 1]) else s
  }

  lemma {:induction false} TrimEndIsPrefix(s: string)
    ensures TrimEnd(s) == s[..|TrimEnd(s)|]
  {
    if s != [] && IsWhitespace(s[|s| - 1]) {
      TrimEndIsPrefix(s[..|s| - 1]);
    }
  }

  /** What `trim_end` cuts off is whitespace. */
  lemma {:induction false} TrimEndCutsWhitespace(s: string)
    ensures AllWhitespace(s[|TrimEnd(s)|..])
  {
    if s != [] && IsWhitespace(s[|s| - 1]) {
      var r := TrimEnd(s[..|s| - 1]);
      TrimEndCutsWhitespace(s[..|s| - 1]);
      assert s[|r|..] == s[..|s| - 1][|r|..] + [s[|s| - 1]];
    }
  }

  /** `s.trim()`: `s` with its leading and trailing whitespace removed. */
  function Trim(s: string): (r: string)
    ensures |r| <= |s|
    ensures r == [] || (!IsWhitespace(r[0]) && !IsWhitespace(r[|r| - 1]))
  {
    var t := TrimStart(s);
    TrimEndIsPrefix(t);
    TrimEnd(t)
  }

  /** A string with no whitespace at either end is its own trim. */
  lemma TrimOfTrimmed(s: string)
    requires s == [] || (!IsWhitespace(s[0]) && !IsWhitespace(s[|s| - 1]))
    ensures Trim(s) == s
  {
  }

  lemma TrimIdempotent(s: string)
    ensures Trim(Trim(s)) == Trim(s)
  {
    TrimOfTrimmed(Trim(s));
  }

  /** `s.contains(c)` for a character pattern. */
  predicate Contains(s: string, c: char) {
    c in s
  }

  /** The position of the first `c` in `s`, if any. */
  function FindFirst(s: string, c: char): (r: Option<nat>)
    ensures r.None? <==> c !in s
    ensures r.Some? ==> r.value < |s| && s[r.value] == c
    ensures r.Some? ==> forall j :: 0 <= j < r.value ==> s[j] != c
  {
    if s == [] then None
    else if s[0] == c then Some(0)
    else
      match FindFirst(s[1..], c)
      case None => None
      case Some(i) => Some(i + 1)
  }

  /** A string of whitespace only trims to nothing. */
  lemma TrimAllWhitespace(s: string)
    ensures AllWhitespace(s) ==> Trim(s) == []
  {
    TrimStartIsSuffix(s);
  }

  /** A string that starts with a non-whitespace character keeps it when trimmed. */
  lemma TrimKeepsFirst(s: string)
    ensures s != [] && !IsWhitespace(s[0]) ==> Trim(s) != [] && Trim(s)[0] == s[0]
  {
    if s != [] && !IsWhitespace(s[0]) {
      assert TrimStart(s) == s;
      TrimEndIsPrefix(s);
      TrimEndCutsWhitespace(s);
    }
  }

  /** Trimming removes characters but never introduces one. */
  lemma TrimWithin(s: string, c: char)
    requires c !in s
    ensures c !in Trim(s)
  {
    TrimStartIsSuffix(s);
    TrimEndIsPrefix(TrimStart(s));
  }

  /** `s.splitn(2, sep)` when it yields two parts: the text before the first `sep`
      and everything after it; `None` when `sep` does not occur (one part). */
  function SplitOnce(s: string, sep: char): (r: Option<(string, string)>)
    ensures r.None? <==> sep !in s
  {
    match FindFirst(s, sep)
    case None => None
    case Some(i) => Some((s[..i], s[i + 1..]))
  }

  /** The two parts put back together around `sep` give `s`, and the first part
      holds no `sep`. */
  lemma SplitOnceJoins(s: string, sep: char)
    requires sep in s
    ensures var (a, b) := SplitOnce(s, sep).value;
      s == a + [sep] + b && sep !in a
  {
    var i := FindFirst(s, sep).value;
    assert s == s[..i] + [sep] + s[i + 1..];
  }
}
