/** Sentence splitting shared by the backend (`split_sentences` in
    backend/main.py) and the abstractive summariser (`_split_sents` in
    backend/summarizer_led.py), which use the same pattern and filter:
    `re.split(r"(?<=[\.!?])\s+(?=[A-Z\(])", text)`, then every piece is
    stripped and the empty ones are dropped. The pattern is modelled as a
    scan over the characters. */
module Sentences {
  import opened Text

  predicate IsTerminal(c: char)
  {
    c == '.' || c == '!' || c == '?'
  }

  /** What may follow a sentence break: an upper-case ASCII letter or `(`. */
  predicate OpensSentence(c: char)
  {
    ('A' <= c <= 'Z') || c == '('
  }

  /** The separator pattern matches at `i`: the character before `i` ends a
      sentence, a whitespace run starts at `i`, and the character after the
      run opens a sentence. Backtracking inside `\s+` cannot help, since a
      shorter run would be followed by whitespace. */
  predicate BreakAt(t: string, i: nat)
    requires i <= |t|
  {
    0 < i < |t| && IsTerminal(t[i - 1]) && IsSpace(t[i])
    && SkipSpace(t, i) < |t| && OpensSentence(t[SkipSpace(t, i)])
  }

  /** The `n` characters of `t` that start at `a`. */
  function SliceAt(t: string, a: int, n: nat): string
    requires 0 <= a && a + n <= |t|
  {
    t[a..a + n]
  }

  /** `s` occurs in `t` as a contiguous slice. */
  predicate Occurs(s: string, t: string)
  {
    exists a :: 0 <= a <= |t| - |s| && SliceAt(t, a, |s|) == s
  }

  /** The pieces `re.split` cuts from `t[from..]` when the scan for the next
      separator has reached `i`. */
  function Pieces(t: string, from: nat, i: nat): (ps: seq<string>)
    requires from <= i <= |t|
    ensures ps != []
    ensures forall k :: 0 <= k < |ps| ==> Occurs(ps[k], t)
    decreases |t| - i
  {
    if i == |t| then
      assert SliceAt(t, from, |t[from..]|) == t[from..];
      [t[from..]]
    else if BreakAt(t, i) then
      assert SliceAt(t, from, |t[from..i]|) == t[from..i];
      [t[from..i]] + Pieces(t, SkipSpace(t, i), SkipSpace(t, i))
    else Pieces(t, from, i + 1)
  }

  lemma SliceOfSlice(t: string, a: nat, m: nat, i: nat, n: nat)
    requires a + m <= |t| && i + n <= m
    ensures SliceAt(SliceAt(t, a, m), i, n) == SliceAt(t, a + i, n)
  {
    var u := SliceAt(t, a, m);
    var x, y := u[i..i + n], t[a + i..a + i + n];
    forall k | 0 <= k < n
      ensures x[k] == y[k]
    {
      assert u[i + k] == t[a + i + k];
    }
    assert x == y;
  }

  /** A stripped slice of `t` is still a slice of `t`. */
  lemma StripOccurs(p: string, t: string)
    requires Occurs(p, t)
    ensures Occurs(Strip(p), t)
  {
    var a :| 0 <= a <= |t| - |p| && SliceAt(t, a, |p|) == p;
    var q, i0 := Strip(p), StripStart(p);
    SliceOfSlice(t, a, |p|, i0, |q|);
    assert SliceAt(p, i0, |q|) == q;
    assert SliceAt(t, a + i0, |q|) == q;
  }

  /** `[s.strip() for s in ps if s.strip()]`. */
  function StripNonEmpty(ps: seq<string>): (r: seq<string>)
    ensures |r| <= |ps|
    ensures forall k :: 0 <= k < |r| ==> r[k] != [] && Stripped(r[k])
  {
    if ps == [] then []
    else if Strip(ps[0]) == [] then StripNonEmpty(ps[1..])
    else [Strip(ps[0])] + StripNonEmpty(ps[1..])
  }

  lemma {:induction false} StripNonEmptyOccurs(ps: seq<string>, t: string)
    requires forall k :: 0 <= k < |ps| ==> Occurs(ps[k], t)
    ensures forall k :: 0 <= k < |StripNonEmpty(ps)| ==> Occurs(StripNonEmpty(ps)[k], t)
  {
    if ps != [] {
      StripNonEmptyOccurs(ps[1..], t);
      StripOccurs(ps[0], t);
    }
  }

  /** `split_sentences(text)`: every sentence is non-empty, carries no
      whitespace at either end, and is a contiguous slice of `text`. */
  function SplitSentences(text: string): (r: seq<string>)
    ensures forall k :: 0 <= k < |r| ==> r[k] != [] && Stripped(r[k]) && Occurs(r[k], text)
  {
    StripNonEmptyOccurs(Pieces(text, 0, 0), text);
    StripNonEmpty(Pieces(text, 0, 0))
  }

  lemma {:induction false} PiecesNoBreak(t: string, from: nat, i: nat)
    requires from <= i <= |t|
    requires forall k :: i <= k < |t| ==> !BreakAt(t, k)
    ensures Pieces(t, from, i) == [t[from..]]
    decreases |t| - i
  {
    if i < |t| {
      PiecesNoBreak(t, from, i + 1);
    }
  }

  /** Text with no sentence break is one sentence (its stripped self), or
      none at all when it is blank. */
  lemma NoBreakOneSentence(t: string)
    requires forall k :: 0 <= k < |t| ==> !BreakAt(t, k)
    ensures SplitSentences(t) == if AllSpace(t) then [] else [Strip(t)]
  {
    PiecesNoBreak(t, 0, 0);
    assert t[0..] == t;
  }

  /** Blank text has no sentences. */
  lemma BlankHasNoSentences(t: string)
    requires AllSpace(t)
    ensures SplitSentences(t) == []
  {
    forall k | 0 <= k < |t|
      ensures !BreakAt(t, k)
    {
      if 0 < k {
        assert IsSpace(t[k - 1]);
      }
    }
    NoBreakOneSentence(t);
  }
}
