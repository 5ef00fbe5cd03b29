/**
  The handful of Python `str` operations the command handlers use on chat
  lines: `startswith`, `count`, `split`, `strip`/`lstrip` (with and without a
  character set), `replace` of one character and `"\n".join`.
 */
module Text {
  import opened Seqs

  /** The characters Python's `str.strip()` (no argument) removes: those for
      which `str.isspace()` holds. */
  const PY_WHITESPACE: set<char> :=
    {'\t', '\n', '\U{0B}', '\U{0C}', '\r', '\U{1C}', '\U{1D}', '\U{1E}', '\U{1F}', ' ',
     '\U{85}', '\U{A0}', '\U{1680}',
     '\U{2000}', '\U{2001}', '\U{2002}', '\U{2003}', '\U{2004}', '\U{2005}', '\U{2006}',
     '\U{2007}', '\U{2008}', '\U{2009}', '\U{200A}',
     '\U{2028}', '\U{2029}', '\U{202F}', '\U{205F}', '\U{3000}'}

  /** The character set of `strip('- ')` and `lstrip('- ')`. */
  const DASH_SPACE: set<char> := {'-', ' '}

  /** `s.startswith(c)` for a one-character prefix. */
  predicate StartsWith(s: string, c: char) {
    |s| > 0 && s[0] == c
  }

  /** `s.count(c)` for a one-character needle. */
  function Count(s: string, c: char): (n: nat)
    ensures n <= |s|
    ensures n == 0 <==> c !in s
  {
    if |s| == 0 then 0 else (if s[0] == c then 1 else 0) + Count(s[1..], c)
  }

  lemma {:induction false} CountAppend(a: string, b: string, c: char)
    ensures Count(a + b, c) == Count(a, c) + Count(b, c)
  {
    if |a| > 0 {
      assert (a + b)[1..] == a[1..] + b;
      CountAppend(a[1..], b, c);
    } else {
      assert a + b == b;
    }
  }

  /** `s.lstrip(cs)`: drops the longest prefix made of characters in `cs`. */
  function LStrip(s: string, cs: set<char>): (r: string)
    ensures |r| <= |s| && r == s[|s| - |r|..]
    ensures forall i :: 0 <= i < |s| - |r| ==> s[i] in cs
    ensures r == [] || r[0] !in cs
    decreases |s|
  {
    if |s| > 0 && s[0] in cs then LStrip(s[1..], cs) else s
  }

  /** `s.rstrip(cs)`: drops the longest suffix made of characters in `cs`. */
  function RStrip(s: string, cs: set<char>): (r: string)
    ensures |r| <= |s| && r == s[..|r|]
    ensures forall i :: |r| <= i < |s| ==> s[i] in cs
    ensures r == [] || r[|r| - 1] !in cs
    decreases |s|
  {
    if |s| > 0 && s[|s| - 1] in cs then RStrip(s[..|s| - 1], cs) else s
  }

  /** `s.strip(cs)`: no character of `cs` is left at either end. */
  function Strip(s: string, cs: set<char>): (r: string)
    ensures |r| <= |s|
    ensures r == [] || (r[0] !in cs && r[|r| - 1] !in cs)
  {
    RStrip(LStrip(s, cs), cs)
  }

  /** `Strip` keeps a contiguous piece of `s`, starting at `i`, and removes
      only characters of `cs`. */
  lemma StripSlice(s: string, cs: set<char>) returns (i: nat)
    ensures i + |Strip(s, cs)| <= |s| && Strip(s, cs) == s[i..i + |Strip(s, cs)|]
    ensures forall k :: 0 <= k < i ==> s[k] in cs
    ensures forall k :: i + |Strip(s, cs)| <= k < |s| ==> s[k] in cs
  {
    var l := LStrip(s, cs);
    var r := RStrip(l, cs);
    i := |s| - |l|;
    assert r == s[i..i + |r|];
    forall k | i + |r| <= k < |s| ensures s[k] in cs {
      assert s[k] == l[k - i];
    }
  }

  /** Stripping adds no character: one absent from `s` is absent from the result. */
  lemma StripKeepsOut(s: string, cs: set<char>, c: char)
    requires c !in s
    ensures c !in Strip(s, cs)
  {
    var i := StripSlice(s, cs);
    var r := Strip(s, cs);
    forall k | 0 <= k < |r| ensures r[k] != c {
      assert r[k] == s[i + k];
    }
  }

  lemma StripNoop(s: string, cs: set<char>)
    requires s == [] || (s[0] !in cs && s[|s| - 1] !in cs)
    ensures Strip(s, cs) == s
  {
  }

  /** Stripping twice with the same set is stripping once. */
  lemma StripIdempotent(s: string, cs: set<char>)
    ensures Strip(Strip(s, cs), cs) == Strip(s, cs)
  {
    StripNoop(Strip(s, cs), cs);
  }

  /** `s.split(sep)`: the pieces between occurrences of `sep`, always one more
      piece than there are separators. */
  function SplitOn(s: string, sep: char): (parts: seq<string>)
    ensures |parts| == Count(s, sep) + 1
    ensures forall k :: 0 <= k < |parts| ==> sep !in parts[k]
    decreases |s|
  {
    if |s| == 0 then [""]
    else
      var rest := SplitOn(s[1..], sep);
      if s[0] == sep then [""] + rest
      else [[s[0]] + rest[0]] + rest[1..]
  }

  /** `sep.join(parts)` for a one-character separator. */
  function JoinWith(parts: seq<string>, sep: char): string
    decreases |parts|
  {
    if |parts| == 0 then ""
    else if |parts| == 1 then parts[0]
    else parts[0] + [sep] + JoinWith(parts[1..], sep)
  }

  lemma JoinWithCons(p: string, parts: seq<string>, sep: char)
    requires |parts| > 0
    ensures JoinWith([p] + parts, sep) == p + [sep] + JoinWith(parts, sep)
  {
    assert ([p] + parts)[1..] == parts;
  }

  /** One step of `SplitOn`: a separator starts a new piece, any other
      character extends the first piece. */
  lemma SplitCons(s: string, sep: char)
    requires |s| > 0
    ensures var rest := SplitOn(s[1..], sep);
      SplitOn(s, sep) == if s[0] == sep then [""] + rest else [[s[0]] + rest[0]] + rest[1..]
  {
  }

  /** Joining the pieces of a split gives back the line. */
  lemma {:induction false} JoinSplit(s: string, sep: char)
    ensures JoinWith(SplitOn(s, sep), sep) == s
    decreases |s|
  {
    if |s| > 0 {
      JoinSplit(s[1..], sep);
      SplitCons(s, sep);
      HeadSplit(s);
      JoinStep(s[0], SplitOn(s[1..], sep), sep, s[1..]);
    }
  }

  /** Joining after one step of `SplitOn` puts the character back in front. */
  lemma JoinStep(c: char, rest: seq<string>, sep: char, joined: string)
    requires |rest| > 0 && JoinWith(rest, sep) == joined
    ensures JoinWith(if c == sep then [""] + rest else [[c] + rest[0]] + rest[1..], sep) == [c] + joined
  {
    if c == sep {
      JoinWithCons("", rest, sep);
    } else if |rest| == 1 {
      assert [[c] + rest[0]] + rest[1..] == [[c] + rest[0]];
    } else {
      var tail := JoinWith(rest[1..], sep);
      HeadSplit(rest);
      JoinWithCons(rest[0], rest[1..], sep);
      JoinWithCons([c] + rest[0], rest[1..], sep);
      assert [c] + rest[0] + [sep] + tail == [c] + (rest[0] + [sep] + tail);
    }
  }

  lemma SplitConsSep(s: string, sep: char)
    requires |s| > 0 && s[0] == sep
    ensures SplitOn(s, sep) == [""] + SplitOn(s[1..], sep)
  {
  }

  lemma {:induction false} SplitPrefix(p: string, rest: string, sep: char)
    requires sep !in p
    ensures SplitOn(p + rest, sep) == [p + SplitOn(rest, sep)[0]] + SplitOn(rest, sep)[1..]
    decreases |p|
  {
    var sp := SplitOn(rest, sep);
    if |p| > 0 {
      SuffixStep(p + rest, 0);
      assert (p + rest)[1..] == p[1..] + rest;
      SplitPrefix(p[1..], rest, sep);
      SplitCons(p + rest, sep);
      HeadSplit(p);
      PrefixStep(p[0], p[1..], SplitOn(p[1..] + rest, sep), sp);
    } else {
      assert p + rest == rest;
      assert p + sp[0] == sp[0];
      HeadSplit(sp);
    }
  }

  /** One step of `SplitPrefix`: a character in front of the first piece. */
  lemma PrefixStep(c: char, q: string, r: seq<string>, sp: seq<string>)
    requires |sp| > 0 && r == [q + sp[0]] + sp[1..]
    ensures [[c] + r[0]] + r[1..] == [[c] + q + sp[0]] + sp[1..]
  {
    assert [c] + (q + sp[0]) == [c] + q + sp[0];
  }

  /** Splitting a join gives back the pieces when no piece holds the separator. */
  lemma {:induction false} SplitJoin(parts: seq<string>, sep: char)
    requires |parts| > 0
    requires forall k :: 0 <= k < |parts| ==> sep !in parts[k]
    ensures SplitOn(JoinWith(parts, sep), sep) == parts
    decreases |parts|
  {
    if |parts| == 1 {
      SplitPrefix(parts[0], "", sep);
      assert SplitOn("", sep) == [""];
      assert parts[0] + "" == parts[0];
    } else {
      var tail := JoinWith(parts[1..], sep);
      SplitJoin(parts[1..], sep);
      assert parts[0] + [sep] + tail == parts[0] + ([sep] + tail);
      SplitPrefix(parts[0], [sep] + tail, sep);
      SplitConsSep([sep] + tail, sep);
      assert ([sep] + tail)[1..] == tail;
      var s := SplitOn([sep] + tail, sep);
      assert s[0] == "" && s[1..] == parts[1..];
      assert parts[0] + s[0] == parts[0];
      assert parts == [parts[0]] + parts[1..];
    }
  }

  /** `s.replace(a, b)` for one-character `a` and `b`. */
  function Replace(s: string, a: char, b: char): (r: string)
    ensures |r| == |s|
    ensures forall i :: 0 <= i < |s| ==> r[i] == (if s[i] == a then b else s[i])
  {
    seq(|s|, i requires 0 <= i < |s| => if s[i] == a then b else s[i])
  }
}
