/** Character classes and the string primitives the backend leans on:
    `str.strip()`, `str.split()` with no separator, `" ".join(...)` and
    ASCII lower-casing. */
module Text {
  import opened Seqs

  /** Python's whitespace: the characters for which `str.isspace()` holds,
      which are also what `\s`, `str.split()` and `str.strip()` treat as
      whitespace. Besides tab, newline, vertical tab, form feed, carriage
      return and space, these are the separators U+001C to U+001F, U+0085,
      and the Unicode space and line/paragraph separators. */
  predicate IsSpace(c: char)
  {
    ('\t' <= c <= '\r') || ('\U{001C}' <= c <= ' ') || c == '\U{0085}' || c == '\U{00A0}'
    || c == '\U{1680}' || ('\U{2000}' <= c <= '\U{200A}') || c == '\U{2028}' || c == '\U{2029}'
    || c == '\U{202F}' || c == '\U{205F}' || c == '\U{3000}'
  }

  predicate IsAsciiLetter(c: char)
  {
    ('a' <= c <= 'z') || ('A' <= c <= 'Z')
  }

  /** The regex class `\w` without the Unicode flag: `[A-Za-z0-9_]`. */
  predicate IsWordChar(c: char)
  {
    IsAsciiLetter(c) || ('0' <= c <= '9') || c == '_'
  }

  function LowerChar(c: char): char
  {
    if 'A' <= c <= 'Z' then (c as int + 32) as char else c
  }

  /** ASCII lower-casing, character by character. */
  function Lower(s: string): (r: string)
    ensures |r| == |s|
    ensures forall i :: 0 <= i < |s| ==> r[i] == LowerChar(s[i])
  {
    seq(|s|, i requires 0 <= i < |s| => LowerChar(s[i]))
  }

  // ----- strip -----

  /** No whitespace at either end. */
  predicate Stripped(s: string)
  {
    s == [] || (!IsSpace(s[0]) && !IsSpace(s[|s| - 1]))
  }

  predicate AllSpace(s: string)
  {
    forall i :: 0 <= i < |s| ==> IsSpace(s[i])
  }

  /** `s` without its leading whitespace. */
  function TrimLeft(s: string): (r: string)
    ensures |r| <= |s| && r == s[|s| - |r|..]
    ensures r == [] || !IsSpace(r[0])
  {
    if s != [] && IsSpace(s[0]) then TrimLeft(s[1..]) else s
  }

  /** Index just past the whitespace run that starts at `i`. */
  function SkipSpace(s: string, i: nat): (j: nat)
    requires i <= |s|
    ensures i <= j <= |s|
    ensures forall k :: i <= k < j ==> IsSpace(s[k])
    ensures j == |s| || !IsSpace(s[j])
    decreases |s| - i
  {
    if i < |s| && IsSpace(s[i]) then SkipSpace(s, i + 1) else i
  }

  /** Index where the whitespace run that ends at `j` starts, not going
      below `lo`. */
  function BackSpace(s: string, lo: nat, j: nat): (e: nat)
    requires lo <= j <= |s|
    ensures lo <= e <= j
    ensures forall k :: e <= k < j ==> IsSpace(s[k])
    ensures e == lo || !IsSpace(s[e - 1])
    decreases j
  {
    if lo < j && IsSpace(s[j - 1]) then BackSpace(s, lo, j - 1) else j
  }

  /** Where the content kept by `Strip` starts. */
  function StripStart(s: string): (i: nat)
    ensures i <= |s|
  {
    SkipSpace(s, 0)
  }

  /** Where the content kept by `Strip` ends. */
  function StripEnd(s: string): (j: nat)
    ensures StripStart(s) <= j <= |s|
  {
    BackSpace(s, StripStart(s), |s|)
  }

  /** Python's `str.strip()`: `s` without the whitespace at its two ends.
      The result is a slice `s[i..j]` of `s`, everything outside it is
      whitespace, and it begins and ends with a non-whitespace character
      unless it is empty. */
  function Strip(s: string): (r: string)
    ensures Stripped(r)
    ensures StripStart(s) + |r| <= |s|
    ensures r == s[StripStart(s)..StripStart(s) + |r|]
    ensures AllSpace(s[..StripStart(s)]) && AllSpace(s[StripStart(s) + |r|..])
    ensures r == [] <==> AllSpace(s)
  {
    StripBounds(s);
    s[StripStart(s)..StripEnd(s)]
  }

  lemma StripBounds(s: string)
    ensures var i, j := StripStart(s), StripEnd(s);
      && AllSpace(s[..i]) && AllSpace(s[j..])
      && (i == j <==> AllSpace(s))
  {
    var i, j := StripStart(s), StripEnd(s);
    var pre, post := s[..i], s[j..];
    forall k | 0 <= k < |pre|
      ensures IsSpace(pre[k])
    {
      assert pre[k] == s[k];
    }
    forall k | 0 <= k < |post|
      ensures IsSpace(post[k])
    {
      assert post[k] == s[j + k];
    }
    if i == j {
      forall k | 0 <= k < |s|
        ensures IsSpace(s[k])
      {
      }
    }
  }

  /** Stripping a string without whitespace at its ends changes nothing. */
  lemma StripStripped(s: string)
    requires Stripped(s)
    ensures Strip(s) == s
  {
  }

  /** Stripping twice is stripping once. */
  lemma StripIdempotent(s: string)
    ensures Strip(Strip(s)) == Strip(s)
  {
    StripStripped(Strip(s));
  }

  // ----- split into words and join -----

  /** A non-empty string without whitespace: what `str.split()` yields. */
  predicate IsWord(w: string)
  {
    w != [] && forall i :: 0 <= i < |w| ==> !IsSpace(w[i])
  }

  /** Length of the run of non-whitespace characters that starts `s`. */
  function WordLen(s: string): (n: nat)
    ensures n <= |s|
    ensures forall i :: 0 <= i < n ==> !IsSpace(s[i])
    ensures n == |s| || IsSpace(s[n])
  {
    if s != [] && !IsSpace(s[0]) then 1 + WordLen(s[1..]) else 0
  }

  /** Python's `s.split()` with no separator: the maximal runs of
      non-whitespace characters, in order. */
  function Words(s: string): (r: seq<string>)
    ensures forall k :: 0 <= k < |r| ==> IsWord(r[k])
    decreases |s|
  {
    var t := TrimLeft(s);
    if t == [] then []
    else
      var n := WordLen(t);
      WordPrefix(t);
      var rest := Words(t[n..]);
      WordsCons(t[..n], rest);
      [t[..n]] + rest
  }

  lemma WordsCons(w: string, rest: seq<string>)
    requires IsWord(w) && forall k :: 0 <= k < |rest| ==> IsWord(rest[k])
    ensures forall k :: 0 <= k < |[w] + rest| ==> IsWord(([w] + rest)[k])
  {
    var ws := [w] + rest;
    forall k | 0 <= k < |ws|
      ensures IsWord(ws[k])
    {
      if k > 0 {
        assert ws[k] == rest[k - 1];
      }
    }
  }

  /** The run `WordLen` measures at the start of non-blank text is a word. */
  lemma WordPrefix(t: string)
    requires t != [] && !IsSpace(t[0])
    ensures 1 <= WordLen(t) && IsWord(t[..WordLen(t)])
  {
    var w := t[..WordLen(t)];
    forall i | 0 <= i < |w|
      ensures !IsSpace(w[i])
    {
      assert w[i] == t[i];
    }
  }

  /** Python's `" ".join(ws)`. */
  function JoinSpace(ws: seq<string>): string
  {
    if ws == [] then ""
    else if |ws| == 1 then ws[0]
    else ws[0] + " " + JoinSpace(ws[1..])
  }

  /** `" ".join` applied to each group. */
  function JoinEach(gs: seq<seq<string>>): (r: seq<string>)
    ensures |r| == |gs|
    ensures forall k :: 0 <= k < |gs| ==> r[k] == JoinSpace(gs[k])
  {
    seq(|gs|, k requires 0 <= k < |gs| => JoinSpace(gs[k]))
  }

  lemma JoinEachAppend(gs: seq<seq<string>>, g: seq<string>)
    ensures JoinEach(gs + [g]) == JoinEach(gs) + [JoinSpace(g)]
  {
    var a, b := JoinEach(gs + [g]), JoinEach(gs) + [JoinSpace(g)];
    forall k | 0 <= k < |a|
      ensures a[k] == b[k]
    {
      assert (gs + [g])[k] == if k < |gs| then gs[k] else g;
    }
  }

  /** `str.split()` applied to each string. */
  function WordsEach(cs: seq<string>): (r: seq<seq<string>>)
    ensures |r| == |cs|
    ensures forall k :: 0 <= k < |cs| ==> r[k] == Words(cs[k])
  {
    seq(|cs|, k requires 0 <= k < |cs| => Words(cs[k]))
  }

  lemma WordsLeadingSpace(c: char, t: string)
    requires IsSpace(c)
    ensures Words([c] + t) == Words(t)
  {
    assert ([c] + t)[1..] == t;
    assert TrimLeft([c] + t) == TrimLeft(t);
  }

  lemma {:induction false} WordLenOfWord(w: string, tail: string)
    requires IsWord(w) && (tail == [] || IsSpace(tail[0]))
    ensures WordLen(w + tail) == |w|
    decreases |w|
  {
    assert (w + tail)[1..] == w[1..] + tail;
    if |w| > 1 {
      WordLenOfWord(w[1..], tail);
    } else {
      assert w[1..] + tail == tail;
    }
  }

  /** A single word splits into itself. */
  lemma WordsOfWord(w: string)
    requires IsWord(w)
    ensures Words(w) == [w]
  {
    WordLenOfWord(w, "");
    assert w + "" == w;
    assert TrimLeft(w) == w;
    assert w[|w|..] == "";
  }

  /** A word followed by a whitespace character (any of them, the
      separators U+001C to U+001F included) and more text splits into that
      word and the words of the rest. */
  lemma WordsOfWordSpace(w: string, c: char, j: string)
    requires IsWord(w) && IsSpace(c)
    ensures Words(w + [c] + j) == [w] + Words(j)
  {
    var s := w + [c] + j;
    assert s == w + ([c] + j);
    WordLenOfWord(w, [c] + j);
    assert TrimLeft(s) == s;
    assert s[|w|..] == [c] + j;
    WordsLeadingSpace(c, j);
    assert s[..|w|] == w;
  }

  /** `" ".join` followed by `str.split()` gives the words back. */
  lemma {:induction false} WordsOfJoin(ws: seq<string>)
    requires forall k :: 0 <= k < |ws| ==> IsWord(ws[k])
    ensures Words(JoinSpace(ws)) == ws
  {
    if ws == [] {
    } else if |ws| == 1 {
      WordsOfWord(ws[0]);
    } else {
      var rest := ws[1..];
      forall k | 0 <= k < |rest|
        ensures IsWord(rest[k])
      {
        assert rest[k] == ws[k + 1];
      }
      WordsOfJoin(rest);
      WordsOfJoinStep(ws[0], rest);
      assert ws == [ws[0]] + rest;
    }
  }

  lemma WordsOfJoinStep(w: string, rest: seq<string>)
    requires IsWord(w) && rest != [] && Words(JoinSpace(rest)) == rest
    ensures Words(JoinSpace([w] + rest)) == [w] + rest
  {
    var ws := [w] + rest;
    assert ws[1..] == rest;
    var j := JoinSpace(rest);
    assert JoinSpace(ws) == w + " " + j;
    WordsOfWordSpace(w, ' ', j);
  }

  /** Splitting each joined group gives the groups back, so the words of the
      joined groups, laid end to end, are the words of the groups. */
  lemma {:induction false} WordsOfJoinEach(gs: seq<seq<string>>)
    requires forall k, i :: 0 <= k < |gs| && 0 <= i < |gs[k]| ==> IsWord(gs[k][i])
    ensures WordsEach(JoinEach(gs)) == gs
  {
    forall k | 0 <= k < |gs|
      ensures Words(JoinSpace(gs[k])) == gs[k]
    {
      WordsOfJoin(gs[k]);
    }
  }
}
