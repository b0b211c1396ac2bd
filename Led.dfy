/** backend/summarizer_led.py: the deterministic frame around the LED
    summarisation model. Sentences are packed greedily into chunks under an
    estimated token budget; each chunk is summarised, the partial summaries
    are stitched and summarised again; bullets are picked from the final
    summary. The model itself (`_led_once`) is a function parameter. */
module Led {
  import opened Seqs
  import opened Text
  import opened Sentences

  /** `max(1, len(s) // 4)`: roughly one token per four characters, and
      never less than one token. */
  function Estimate(s: string): (e: nat)
    ensures e >= 1
    ensures |s| >= 4 ==> 4 * e <= |s| < 4 * e + 4
  {
    if |s| / 4 < 1 then 1 else |s| / 4
  }

  /** Summed estimate of a chunk's sentences. */
  function EstSum(g: seq<string>): (n: nat)
    ensures n >= |g|
  {
    if g == [] then 0 else EstSum(g[..|g| - 1]) + Estimate(g[|g| - 1])
  }

  lemma EstSumAppend(g: seq<string>, s: string)
    ensures EstSum(g + [s]) == EstSum(g) + Estimate(s)
  {
    assert (g + [s])[..|g|] == g;
  }

  /** A chunk respects the budget, or is a single sentence that alone is
      over it. */
  predicate Fits(g: seq<string>, maxTokens: int)
  {
    EstSum(g) <= maxTokens || (|g| == 1 && Estimate(g[0]) > maxTokens)
  }

  /** The chunks (as sentence lists) that the loop of `_chunk_by_tokens`
      emits from the sentences `ss` when the open chunk is `cur` and its
      running estimate is `curEst`: a sentence closes the open chunk first
      when the chunk is non-empty and the sentence would take it over the
      budget. */
  function PackFrom(ss: seq<string>, cur: seq<string>, curEst: int, maxTokens: int): seq<seq<string>>
    decreases |ss|
  {
    if ss == [] then (if cur == [] then [] else [cur])
    else
      var e := Estimate(ss[0]);
      if cur != [] && curEst + e > maxTokens then [cur] + PackFrom(ss[1..], [ss[0]], e, maxTokens)
      else PackFrom(ss[1..], cur + [ss[0]], curEst + e, maxTokens)
  }

  /** The chunks `_chunk_by_tokens` forms from the sentences `ss`. */
  function Pack(ss: seq<string>, maxTokens: int): seq<seq<string>>
  {
    PackFrom(ss, [], 0, maxTokens)
  }

  lemma {:induction false} PackFromFlatten(ss: seq<string>, cur: seq<string>, curEst: int, maxTokens: int)
    ensures Flatten(PackFrom(ss, cur, curEst, maxTokens)) == cur + ss
    decreases |ss|
  {
    if ss == [] {
      assert Flatten([cur]) == cur + Flatten([]);
    } else {
      var e := Estimate(ss[0]);
      assert ss == [ss[0]] + ss[1..];
      if cur != [] && curEst + e > maxTokens {
        PackFromFlatten(ss[1..], [ss[0]], e, maxTokens);
        assert ([cur] + PackFrom(ss[1..], [ss[0]], e, maxTokens))[1..] == PackFrom(ss[1..], [ss[0]], e, maxTokens);
      } else {
        PackFromFlatten(ss[1..], cur + [ss[0]], curEst + e, maxTokens);
      }
    }
  }

  /** Every sentence lands in exactly one chunk, in order: the chunks laid
      end to end are the sentences. */
  lemma PackFlatten(ss: seq<string>, maxTokens: int)
    ensures Flatten(Pack(ss, maxTokens)) == ss
  {
    PackFromFlatten(ss, [], 0, maxTokens);
  }

  lemma {:induction false} PackFromShape(ss: seq<string>, cur: seq<string>, curEst: int, maxTokens: int)
    requires curEst == EstSum(cur)
    requires cur == [] || Fits(cur, maxTokens)
    ensures forall k :: 0 <= k < |PackFrom(ss, cur, curEst, maxTokens)| ==>
      PackFrom(ss, cur, curEst, maxTokens)[k] != [] && Fits(PackFrom(ss, cur, curEst, maxTokens)[k], maxTokens)
    ensures |PackFrom(ss, cur, curEst, maxTokens)| <= |ss| + (if cur == [] then 0 else 1)
    decreases |ss|
  {
    if ss != [] {
      var s, e := ss[0], Estimate(ss[0]);
      EstSumAppend(cur, s);
      if cur != [] && curEst + e > maxTokens {
        assert EstSum([s]) == e by { EstSumAppend([], s); }
        PackFromShape(ss[1..], [s], e, maxTokens);
      } else {
        assert cur == [] ==> cur + [s] == [s];
        PackFromShape(ss[1..], cur + [s], curEst + e, maxTokens);
      }
    }
  }

  /** No chunk is empty, no chunk goes over the budget unless it is a lone
      sentence whose own estimate already does, and there are no more
      chunks than sentences (so no sentences give no chunks). */
  lemma PackShape(ss: seq<string>, maxTokens: int)
    ensures forall k :: 0 <= k < |Pack(ss, maxTokens)| ==>
      Pack(ss, maxTokens)[k] != [] && Fits(Pack(ss, maxTokens)[k], maxTokens)
    ensures |Pack(ss, maxTokens)| <= |ss|
  {
    PackFromShape(ss, [], 0, maxTokens);
  }

  lemma {:induction false} PackFromHead(ss: seq<string>, cur: seq<string>, curEst: int, maxTokens: int)
    requires cur != [] || ss != []
    ensures PackFrom(ss, cur, curEst, maxTokens) != []
    ensures PackFrom(ss, cur, curEst, maxTokens)[0] != []
    ensures PackFrom(ss, cur, curEst, maxTokens)[0][0] == if cur != [] then cur[0] else ss[0]
    decreases |ss|
  {
    if ss != [] {
      var e := Estimate(ss[0]);
      if cur != [] && curEst + e > maxTokens {
      } else {
        PackFromHead(ss[1..], cur + [ss[0]], curEst + e, maxTokens);
      }
    }
  }

  /** Chunk `k` was closed because the first sentence of chunk `k + 1`
      would have taken it over the budget. */
  predicate ClosedWhenFull(g: seq<seq<string>>, k: nat, maxTokens: int)
    requires k + 1 < |g|
  {
    g[k + 1] != [] && EstSum(g[k]) + Estimate(g[k + 1][0]) > maxTokens
  }

  predicate Greedy(g: seq<seq<string>>, maxTokens: int)
  {
    forall k :: 0 <= k < |g| - 1 ==> ClosedWhenFull(g, k, maxTokens)
  }

  lemma {:induction false} PackFromGreedy(ss: seq<string>, cur: seq<string>, curEst: int, maxTokens: int)
    requires curEst == EstSum(cur)
    ensures Greedy(PackFrom(ss, cur, curEst, maxTokens), maxTokens)
    decreases |ss|
  {
    if ss != [] {
      var s, e := ss[0], Estimate(ss[0]);
      EstSumAppend(cur, s);
      if cur != [] && curEst + e > maxTokens {
        assert EstSum([s]) == e by { EstSumAppend([], s); }
        PackFromGreedy(ss[1..], [s], e, maxTokens);
        PackFromHead(ss[1..], [s], e, maxTokens);
        var rest := PackFrom(ss[1..], [s], e, maxTokens);
        var g := [cur] + rest;
        forall k | 0 <= k < |g| - 1
          ensures ClosedWhenFull(g, k, maxTokens)
        {
          if k > 0 {
            assert g[k] == rest[k - 1] && g[k + 1] == rest[k];
            assert ClosedWhenFull(rest, k - 1, maxTokens);
          }
        }
      } else {
        PackFromGreedy(ss[1..], cur + [s], curEst + e, maxTokens);
      }
    }
  }

  /** The packing is greedy: a chunk is closed only when the first sentence
      of the next chunk would have taken it over the budget. */
  lemma PackGreedy(ss: seq<string>, maxTokens: int)
    ensures Greedy(Pack(ss, maxTokens), maxTokens)
  {
    PackFromGreedy(ss, [], 0, maxTokens);
  }

  /** One turn of the `_chunk_by_tokens` loop keeps "the chunks closed so
      far, followed by what the rest of the loop will close, are the whole
      packing". */
  lemma PackStep(closed: seq<seq<string>>, ss: seq<string>, i: nat, cur: seq<string>, curEst: int, maxTokens: int)
    requires i < |ss|
    requires closed + PackFrom(ss[i..], cur, curEst, maxTokens) == Pack(ss, maxTokens)
    ensures cur != [] && curEst + Estimate(ss[i]) > maxTokens ==>
      (closed + [cur]) + PackFrom(ss[i + 1..], [ss[i]], Estimate(ss[i]), maxTokens) == Pack(ss, maxTokens)
    ensures !(cur != [] && curEst + Estimate(ss[i]) > maxTokens) ==>
      closed + PackFrom(ss[i + 1..], cur + [ss[i]], curEst + Estimate(ss[i]), maxTokens) == Pack(ss, maxTokens)
  {
    assert ss[i..][0] == ss[i] && ss[i..][1..] == ss[i + 1..];
    var e := Estimate(ss[i]);
    if cur != [] && curEst + e > maxTokens {
      assert PackFrom(ss[i..], cur, curEst, maxTokens) == [cur] + PackFrom(ss[i + 1..], [ss[i]], e, maxTokens);
      assert closed + ([cur] + PackFrom(ss[i + 1..], [ss[i]], e, maxTokens))
          == (closed + [cur]) + PackFrom(ss[i + 1..], [ss[i]], e, maxTokens);
    }
  }

  /** `_chunk_by_tokens(text, max_tokens)`: the loop over the sentences of
      `text` that keeps the open chunk `cur` and its estimate `curEst`, and
      joins every closed chunk with single spaces. */
  method ChunkByTokens(text: string, maxTokens: int) returns (chunks: seq<string>)
    ensures chunks == JoinEach(Pack(SplitSentences(text), maxTokens))
  {
    var sents := SplitSentences(text);
    chunks := [];
    var cur: seq<string> := [];
    var curEst := 0;
    ghost var closed: seq<seq<string>> := [];
    assert sents[0..] == sents;
    for i := 0 to |sents|
      invariant chunks == JoinEach(closed)
      invariant closed + PackFrom(sents[i..], cur, curEst, maxTokens) == Pack(sents, maxTokens)
    {
      var s := sents[i];
      var est := Estimate(s);
      PackStep(closed, sents, i, cur, curEst, maxTokens);
      if cur != [] && curEst + est > maxTokens {
        JoinEachAppend(closed, cur);
        chunks := chunks + [JoinSpace(cur)];
        closed := closed + [cur];
        cur, curEst := [], 0;
        assert cur + [s] == [s];
      }
      cur := cur + [s];
      curEst := curEst + est;
    }
    assert sents[|sents|..] == [];
    if cur != [] {
      JoinEachAppend(closed, cur);
      chunks := chunks + [JoinSpace(cur)];
      closed := closed + [cur];
    }
    assert closed == Pack(sents, maxTokens);
  }

  // ----- bullets -----

  /** The bullet filter: more than 15 characters. */
  predicate IsLong(s: string)
  {
    |s| > 15
  }

  /** `[s for s in sents if len(s) > 15][:6]`. */
  function SelectBullets(sents: seq<string>): (r: seq<string>)
    ensures |r| <= 6 && forall k :: 0 <= k < |r| ==> IsLong(r[k])
  {
    PyPrefix(Filter(sents, IsLong), 6)
  }

  /** Bullets are an order-preserving selection of the sentences: the
      first `min(6, n)` of the `n` sentences longer than 15 characters, in
      order; and when fewer than six come back, no long sentence was left
      out. */
  lemma BulletsSelection(sents: seq<string>)
    ensures var f := Filter(sents, IsLong);
      |SelectBullets(sents)| == (if |f| < 6 then |f| else 6) && SelectBullets(sents) == f[..|SelectBullets(sents)|]
    ensures forall k :: 0 <= k < |SelectBullets(sents)| ==> |SelectBullets(sents)[k]| > 15
    ensures IsSubseq(SelectBullets(sents), sents)
    ensures |SelectBullets(sents)| < 6 ==>
      forall s :: s in sents && |s| > 15 ==> s in SelectBullets(sents)
  {
    var f := Filter(sents, IsLong);
    var r := SelectBullets(sents);
    assert forall k :: 0 <= k < |r| ==> r[k] == f[k];
    assert forall k :: 0 <= k < |r| ==> r[k] in f;
    PrefixIsSubseq(r, f);
    FilterIsSubseq(sents, IsLong);
    SubseqTrans(r, f, sents);
  }

  // ----- led_summarize -----

  /** A summary as the backend returns it: one paragraph, or a list. */
  datatype Summary = Paragraph(text: string) | Items(items: seq<string>)

  /** The generation settings `_led_once` is called with; the length
      penalty is in hundredths. */
  datatype GenParams = GenParams(maxNew: nat, minNew: nat, numBeams: nat, noRepeatNgram: nat, lengthPenaltyPct: nat)

  /** Settings of the per-chunk pass. */
  const ChunkPass := GenParams(300, 80, 4, 3, 100)

  /** Settings of the final pass over the stitched chunk summaries. */
  const FinalPass := GenParams(420, 160, 5, 3, 105)

  /** The token budget per chunk. */
  const ChunkBudget := 3500

  /** Bullets kept from the final summary. */
  const MaxBullets := 6

  /** `[_led_once(ch, max_new=300, min_new=80) for ch in chunks]`. */
  function SummarizeEach(chunks: seq<string>, generate: (string, GenParams) -> string): (r: seq<string>)
    ensures |r| == |chunks|
    ensures forall k :: 0 <= k < |chunks| ==> r[k] == generate(chunks[k], ChunkPass)
  {
    if chunks == [] then [] else [generate(chunks[0], ChunkPass)] + SummarizeEach(chunks[1..], generate)
  }

  /** The final-pass summary of (already stripped, non-blank) text. */
  function FinalSummary(t: string, generate: (string, GenParams) -> string): string
  {
    generate(JoinSpace(SummarizeEach(JoinEach(Pack(SplitSentences(t), ChunkBudget)), generate)), FinalPass)
  }

  /** `led_summarize(text, want_bullets)`. Blank text short-circuits to an
      empty paragraph or an empty list, whatever the generator would do;
      otherwise the result is the final-pass summary, or the bullets
      selected from its sentences. */
  method LedSummarize(text: string, wantBullets: bool, generate: (string, GenParams) -> string) returns (r: Summary)
    ensures AllSpace(text) ==> r == if wantBullets then Items([]) else Paragraph("")
    ensures !AllSpace(text) && !wantBullets ==> r == Paragraph(FinalSummary(Strip(text), generate))
    ensures !AllSpace(text) && wantBullets ==>
      r == Items(SelectBullets(SplitSentences(FinalSummary(Strip(text), generate))))
    ensures wantBullets <==> r.Items?
  {
    var t := Strip(text);
    if t == [] {
      return if wantBullets then Items([]) else Paragraph("");
    }
    var chunks := ChunkByTokens(t, ChunkBudget);
    var firstPass := SummarizeEach(chunks, generate);
    var final := generate(JoinSpace(firstPass), FinalPass);
    if !wantBullets {
      return Paragraph(final);
    }
    r := Items(SelectBullets(SplitSentences(final)));
  }
}
