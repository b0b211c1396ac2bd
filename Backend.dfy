/** backend/main.py: word chunking, the extractive summariser and the
    in-memory document store `DOCS` behind the routes `/upload`,
    `/summarize`, `/index` and `/ask`. Text extraction and cleaning, the
    embedding and TF-IDF retrievers and the answer generator stay outside:
    the routes receive the cleaned text, the retriever's ranking and the
    generator as parameters. */
module Backend {
  import opened Seqs
  import opened Text
  import opened Sentences
  import opened Led

  // ----- chunk_by_words -----

  /** The group size `chunk_by_words` ends up with: a chunk is closed as soon
      as `len(cur) >= max_words`, so any `max_words` below 1 acts as 1. */
  function Cap(maxWords: int): (n: nat)
    ensures n >= 1 && (maxWords >= 1 ==> n == maxWords)
  {
    if maxWords < 1 then 1 else maxWords
  }

  /** The words cut into consecutive groups of `n`; only the last group may
      be shorter. */
  function Group(ws: seq<string>, n: nat): seq<seq<string>>
    requires n >= 1
    decreases |ws|
  {
    if ws == [] then []
    else if |ws| <= n then [ws]
    else [ws[..n]] + Group(ws[n..], n)
  }

  /** Full groups of `n` words laid end to end, followed by more words, are
      cut back into those same groups. */
  lemma {:induction false} GroupFull(full: seq<seq<string>>, b: seq<string>, n: nat)
    requires n >= 1
    requires forall k :: 0 <= k < |full| ==> |full[k]| == n
    ensures Group(Flatten(full) + b, n) == full + Group(b, n)
  {
    if full == [] {
      assert Flatten(full) + b == b;
    } else {
      var rest := Flatten(full[1..]) + b;
      var ws := full[0] + rest;
      assert Flatten(full) + b == ws;
      GroupFull(full[1..], b, n);
      assert ws[..n] == full[0] && ws[n..] == rest;
      if rest == [] {
        if full[1..] != [] {
          assert false;
        }
        assert b == [];
        assert ws == full[0];
        assert Group(ws, n) == [full[0]];
        assert full == [full[0]];
      } else {
        assert Group(ws, n) == [full[0]] + Group(rest, n);
        assert full == [full[0]] + full[1..];
      }
    }
  }

  /** `chunk_by_words(text, max_words)`: the loop that appends each word to
      `cur` and closes `cur` once it holds `max_words` words. The chunks are
      the groups of `Cap(max_words)` consecutive words of `text.split()`,
      each joined with single spaces. */
  method ChunkByWords(text: string, maxWords: int) returns (chunks: seq<string>)
    ensures chunks == JoinEach(Group(Words(text), Cap(maxWords)))
  {
    var words := Words(text);
    ghost var n := Cap(maxWords);
    chunks := [];
    var cur: seq<string> := [];
    ghost var full: seq<seq<string>> := [];
    for i := 0 to |words|
      invariant Flatten(full) + cur == words[..i] && |cur| < n
      invariant forall k :: 0 <= k < |full| ==> |full[k]| == n
      invariant chunks == JoinEach(full)
    {
      assert words[..i + 1] == words[..i] + [words[i]];
      cur := cur + [words[i]];
      assert Flatten(full) + cur == words[..i + 1];
      if |cur| >= maxWords {
        assert |cur| == n;
        CloseGroup(full, cur, n);
        chunks := chunks + [JoinSpace(cur)];
        full := full + [cur];
        cur := [];
      }
    }
    assert words == words[..|words|];
    GroupTail(full, cur, n);
    if cur != [] {
      chunks := chunks + [JoinSpace(cur)];
    }
  }

  /** Closing the loop: the full groups and then what is left in `cur`, if
      anything, as the last chunk. */
  lemma GroupTail(full: seq<seq<string>>, cur: seq<string>, n: nat)
    requires n >= 1 && |cur| < n
    requires forall k :: 0 <= k < |full| ==> |full[k]| == n
    ensures JoinEach(Group(Flatten(full) + cur, n))
      == JoinEach(full) + (if cur == [] then [] else [JoinSpace(cur)])
  {
    GroupFull(full, cur, n);
    if cur == [] {
      assert full + [] == full;
    } else {
      JoinEachAppend(full, cur);
    }
  }

  /** Closing `cur` once it holds `n` words keeps the loop's account of
      the full groups. */
  lemma CloseGroup(full: seq<seq<string>>, cur: seq<string>, n: nat)
    requires |cur| == n
    requires forall k :: 0 <= k < |full| ==> |full[k]| == n
    ensures Flatten(full + [cur]) == Flatten(full) + cur
    ensures forall k :: 0 <= k < |full + [cur]| ==> |(full + [cur])[k]| == n
    ensures JoinEach(full + [cur]) == JoinEach(full) + [JoinSpace(cur)]
  {
    FlattenAppend(full, [cur]);
    assert Flatten([cur]) == cur + [];
    JoinEachAppend(full, cur);
  }

  lemma {:induction false} GroupFlatten(ws: seq<string>, n: nat)
    requires n >= 1
    ensures Flatten(Group(ws, n)) == ws
    decreases |ws|
  {
    if ws != [] && |ws| > n {
      GroupFlatten(ws[n..], n);
      assert ws == ws[..n] + ws[n..];
    } else if ws != [] {
      assert ws + [] == ws;
    }
  }

  /** Every group is non-empty and holds at most `n` words; every group but
      the last holds exactly `n`; there are no more groups than words and
      none at all only for no words. */
  lemma {:induction false} GroupShape(ws: seq<string>, n: nat)
    requires n >= 1
    ensures var g := Group(ws, n);
      && |g| <= |ws| && (g == [] <==> ws == [])
      && (forall k :: 0 <= k < |g| ==> 0 < |g[k]| <= n)
      && (forall k :: 0 <= k < |g| - 1 ==> |g[k]| == n)
    decreases |ws|
  {
    var g := Group(ws, n);
    if ws == [] {
    } else if |ws| <= n {
    } else {
      GroupShape(ws[n..], n);
      var rest := Group(ws[n..], n);
      assert g == [ws[..n]] + rest;
      forall k | 0 < k < |g|
        ensures g[k] == rest[k - 1]
      {
      }
    }
  }

  /** The number of groups is `ceil(|ws| / n)`, stated without division:
      one group fewer would hold fewer than `|ws|` words, and that many
      groups hold at least `|ws|`. */
  lemma {:induction false} GroupCount(ws: seq<string>, n: nat)
    requires n >= 1
    ensures var g := Group(ws, n);
      ws != [] ==> n * (|g| - 1) < |ws| <= n * |g|
    decreases |ws|
  {
    if |ws| > n {
      GroupCount(ws[n..], n);
      var m := |Group(ws[n..], n)|;
      assert |Group(ws, n)| == m + 1;
      assert n * (m + 1) == n * m + n;
      assert n * m == n * (m - 1) + n;
    }
  }

  /** The chunks of `chunk_by_words` split back into exactly the words of
      `text`, in order; none is empty; each holds at most `Cap(max_words)`
      words and all but the last exactly that many; text without words gives
      no chunks and there are never more chunks than words. */
  lemma ChunkByWordsProps(text: string, maxWords: int)
    ensures var n := Cap(maxWords);
      var g := Group(Words(text), n);
      var chunks := JoinEach(g);
      && WordsEach(chunks) == g
      && Flatten(WordsEach(chunks)) == Words(text)
      && |chunks| <= |Words(text)| && (chunks == [] <==> Words(text) == [])
      && (forall k :: 0 <= k < |chunks| ==> 0 < |WordsEach(chunks)[k]| <= n)
      && (forall k :: 0 <= k < |chunks| - 1 ==> |WordsEach(chunks)[k]| == n)
  {
    var n := Cap(maxWords);
    var ws := Words(text);
    var g := Group(ws, n);
    GroupFlatten(ws, n);
    GroupShape(ws, n);
    GroupWords(ws, n);
    WordsOfJoinEach(g);
  }

  /** There are `ceil(|words| / Cap(max_words))` chunks, stated without
      division. */
  lemma ChunkCount(text: string, maxWords: int)
    ensures var n := Cap(maxWords);
      var chunks := JoinEach(Group(Words(text), n));
      Words(text) != [] ==> n * (|chunks| - 1) < |Words(text)| <= n * |chunks|
  {
    var ws, n := Words(text), Cap(maxWords);
    var g := Group(ws, n);
    GroupCount(ws, n);
    var m := |JoinEach(g)|;
    assert m == |g|;
    assert ws != [] ==> n * (m - 1) < |ws| <= n * m;
  }

  lemma {:induction false} GroupWords(ws: seq<string>, n: nat)
    requires n >= 1
    requires forall k :: 0 <= k < |ws| ==> IsWord(ws[k])
    ensures var g := Group(ws, n);
      forall k, i :: 0 <= k < |g| && 0 <= i < |g[k]| ==> IsWord(g[k][i])
    decreases |ws|
  {
    if |ws| > n {
      GroupWords(ws[n..], n);
      var g := Group(ws, n);
      forall k, i | 0 <= k < |g| && 0 <= i < |g[k]|
        ensures IsWord(g[k][i])
      {
        if k > 0 {
          assert g[k] == Group(ws[n..], n)[k - 1];
        } else {
          assert g[0][i] == ws[i];
        }
      }
    }
  }

  // ----- extractive_summary -----

  /** The keyword set that earns a bonus of 2 per token. */
  const Keys: set<string> := {"court", "issue", "hold", "reason", "contract", "clause", "section", "order", "notice", "termination"}

  /** Length of the run of ASCII letters that starts `s`. */
  function LetterRun(s: string): (n: nat)
    ensures n <= |s|
    ensures forall i :: 0 <= i < n ==> IsAsciiLetter(s[i])
    ensures n == |s| || !IsAsciiLetter(s[n])
  {
    if s != [] && IsAsciiLetter(s[0]) then 1 + LetterRun(s[1..]) else 0
  }

  /** `re.findall(r"[A-Za-z]{3,}", s)`: the maximal runs of ASCII letters
      that are at least three long, in order. A shorter run cannot match at
      any of its positions, so the scan skips it whole. */
  function Tokens(s: string): (ts: seq<string>)
    ensures forall k :: 0 <= k < |ts| ==>
      |ts[k]| >= 3 && (forall i :: 0 <= i < |ts[k]| ==> IsAsciiLetter(ts[k][i]))
    decreases |s|
  {
    if s == [] then []
    else if !IsAsciiLetter(s[0]) then Tokens(s[1..])
    else
      var n := LetterRun(s);
      if n >= 3 then [s[..n]] + Tokens(s[n..]) else Tokens(s[n..])
  }

  /** How many tokens are keywords. */
  function KeyCount(ts: seq<string>): (c: nat)
    ensures c <= |ts|
  {
    if ts == [] then 0 else (if ts[0] in Keys then 1 else 0) + KeyCount(ts[1..])
  }

  /** A sentence's score: one point per token of its lower-cased text plus
      two per keyword token. It is at least the token count and at most
      three times it. */
  function Score(s: string): (r: nat)
    ensures |Tokens(Lower(s))| <= r <= 3 * |Tokens(Lower(s))|
  {
    var ts := Tokens(Lower(s));
    |ts| + 2 * KeyCount(ts)
  }

  /** An entry of `scored`: `(score, s)`. */
  datatype Scored = Scored(score: int, sentence: string)

  function ScoreOf(p: Scored): int
  {
    p.score
  }

  /** The list `scored` before sorting. */
  function ScoreAll(ss: seq<string>): (r: seq<Scored>)
    ensures |r| == |ss|
    ensures forall k :: 0 <= k < |ss| ==> r[k] == Scored(Score(ss[k]), ss[k])
  {
    seq(|ss|, k requires 0 <= k < |ss| => Scored(Score(ss[k]), ss[k]))
  }

  /** `scored` after the stable sort by score, largest first, cut to
      `max_sentences` entries. */
  function Ranked(ss: seq<string>, maxSentences: int): seq<Scored>
  {
    PyPrefix(SortDesc(ScoreAll(ss), ScoreOf), maxSentences)
  }

  function SentencesOf(ps: seq<Scored>): (r: seq<string>)
    ensures |r| == |ps|
    ensures forall k :: 0 <= k < |ps| ==> r[k] == ps[k].sentence
  {
    seq(|ps|, k requires 0 <= k < |ps| => ps[k].sentence)
  }

  /** `extractive_summary(text, max_sentences)`: the loop that scores every
      sentence, then the stable sort and the cut. `min(max_sentences, n)`
      of the text's `n` sentences (when `max_sentences` is not negative),
      each a sentence of `text`, in non-increasing score order. */
  method ExtractiveSummary(text: string, maxSentences: int) returns (summary: seq<string>)
    ensures summary == SentencesOf(Ranked(SplitSentences(text), maxSentences))
    ensures 0 <= maxSentences ==>
      |summary| == (if maxSentences < |SplitSentences(text)| then maxSentences else |SplitSentences(text)|)
    ensures forall k :: 0 <= k < |summary| ==> summary[k] in SplitSentences(text)
    ensures forall i, j :: 0 <= i < j < |summary| ==> Score(summary[i]) >= Score(summary[j])
  {
    var sents := SplitSentences(text);
    var scored: seq<Scored> := [];
    for i := 0 to |sents|
      invariant |scored| == i
      invariant forall k :: 0 <= k < i ==> scored[k] == Scored(Score(sents[k]), sents[k])
    {
      var s := sents[i];
      var tokens := Tokens(Lower(s));
      var score := |tokens| + 2 * KeyCount(tokens);
      scored := scored + [Scored(score, s)];
    }
    assert scored == ScoreAll(sents);
    scored := SortDesc(scored, ScoreOf);
    summary := SentencesOf(PyPrefix(scored, maxSentences));
    SummaryProps(sents, maxSentences);
  }

  /** The summary keeps `min(max_sentences, |sentences|)` sentences (when
      that is not negative), each a sentence of the text, in non-increasing
      score order, and no sentence left out scores higher than a kept one. */
  lemma SummaryProps(ss: seq<string>, maxSentences: int)
    ensures var summary := SentencesOf(Ranked(ss, maxSentences));
      && (0 <= maxSentences ==> |summary| == (if maxSentences < |ss| then maxSentences else |ss|))
      && (forall k :: 0 <= k < |summary| ==> summary[k] in ss)
      && (forall i, j :: 0 <= i < j < |summary| ==> Score(summary[i]) >= Score(summary[j]))
      && (forall x, k :: x in multiset(ScoreAll(ss)) - multiset(Ranked(ss, maxSentences)) && 0 <= k < |summary| ==>
            Score(x.sentence) <= Score(summary[k]))
  {
    RankedProps(ss, maxSentences);
    var r := Ranked(ss, maxSentences);
    var summary := SentencesOf(r);
    forall i, j | 0 <= i < j < |summary|
      ensures Score(summary[i]) >= Score(summary[j])
    {
      assert ScoreOf(r[i]) >= ScoreOf(r[j]);
    }
    forall x, k | x in multiset(ScoreAll(ss)) - multiset(r) && 0 <= k < |summary|
      ensures Score(x.sentence) <= Score(summary[k])
    {
      ScoreAllScores(ss, x);
      assert x.score <= r[k].score;
    }
  }

  /** Every entry of `scored` carries its own sentence's score. */
  lemma ScoreAllScores(ss: seq<string>, x: Scored)
    requires x in multiset(ScoreAll(ss))
    ensures x.score == Score(x.sentence) && x.sentence in ss
  {
    var j :| 0 <= j < |ScoreAll(ss)| && ScoreAll(ss)[j] == x;
  }

  /** What the ranking keeps: `min(max_sentences, |sentences|)` entries
      (when that is not negative), each a sentence of the input carrying
      its own score, sorted by score, largest first; every entry the cut
      drops scores at most every entry it keeps. */
  lemma RankedProps(ss: seq<string>, maxSentences: int)
    ensures var r := Ranked(ss, maxSentences);
      && (0 <= maxSentences ==> |r| == (if maxSentences < |ss| then maxSentences else |ss|))
      && (forall k :: 0 <= k < |r| ==> r[k].sentence in ss && r[k].score == Score(r[k].sentence))
      && SortedDesc(r, ScoreOf)
      && (forall x, k :: x in multiset(ScoreAll(ss)) - multiset(r) && 0 <= k < |r| ==> x.score <= r[k].score)
  {
    var all := ScoreAll(ss);
    var sorted := SortDesc(all, ScoreOf);
    SortDescSortedPerm(all, ScoreOf);
    var r := Ranked(ss, maxSentences);
    forall k | 0 <= k < |r|
      ensures r[k].sentence in ss && r[k].score == Score(r[k].sentence)
    {
      assert r[k] == sorted[k];
      assert r[k] in multiset(all);
      var j :| 0 <= j < |all| && all[j] == r[k];
    }
    SortedCut(sorted, |r|, ScoreOf);
  }

  /** The sort is stable and the cut keeps a prefix: for every score, the
      kept sentences with that score are the first sentences of the text
      with that score, in text order. */
  lemma ExtractiveStable(ss: seq<string>, maxSentences: int, v: int)
    ensures var kept := WithKey(Ranked(ss, maxSentences), ScoreOf, v);
      var all := WithKey(ScoreAll(ss), ScoreOf, v);
      |kept| <= |all| && kept == all[..|kept|]
  {
    var sorted := SortDesc(ScoreAll(ss), ScoreOf);
    SortDescSortedPerm(ScoreAll(ss), ScoreOf);
    SortDescStable(ScoreAll(ss), ScoreOf, v);
    WithKeyPrefix(sorted, |Ranked(ss, maxSentences)|, ScoreOf, v);
  }

  // ----- the document store and its routes -----

  /** An entry of `DOCS`: what `upload` stores, and which retriever indexes
      `build_index` has added (the embeddings and TF-IDF matrices themselves
      are not modelled). */
  datatype Doc = Doc(title: string, text: string, sentences: seq<string>, chunks: seq<string>,
                     hasEmb: bool, hasTfidf: bool)

  datatype UploadOut = UploadOut(docId: string, title: string, chars: nat)

  datatype Retriever = Sbert | Tfidf

  datatype IndexOut = IndexOut(docId: string, sentences: nat, retriever: Retriever)

  /** A citation of `/ask`: the sentence index and at most 300 characters of
      its text (the similarity score is not modelled). */
  datatype Citation = Citation(i: nat, text: string)

  datatype AskOut = AskOut(answer: string, citations: seq<Citation>)

  /** A route's reply: its result, or the `{"error": ...}` object. */
  datatype Reply<T> = Ok(value: T) | Error(message: string)

  const UploadChunkWords := 250
  const ExtractiveSentences := 5
  const CitationChars := 300
  const DocNotFound := "Document not found"
  const IndexDocNotFound := "doc not found"
  const NoSentences := "no sentences"
  const NotIndexed := "Document not indexed. Call /index first."

  /** The entry `upload` stores for a cleaned text. */
  function NewDoc(filename: string, text: string): Doc
  {
    Doc(filename, text, SplitSentences(text), JoinEach(Group(Words(text), UploadChunkWords)), false, false)
  }

  /** The retriever `/ask` consults: the embeddings when present, else TF-IDF. */
  function UsedRetriever(d: Doc): Retriever
  {
    if d.hasEmb then Sbert else Tfidf
  }

  /** `"\n".join(texts)`. */
  function JoinLines(ts: seq<string>): string
  {
    if ts == [] then ""
    else if |ts| == 1 then ts[0]
    else ts[0] + "\n" + JoinLines(ts[1..])
  }

  /** The texts of the sentences at the given indices. */
  function HitTexts(sents: seq<string>, idx: seq<nat>): (r: seq<string>)
    requires forall j :: 0 <= j < |idx| ==> idx[j] < |sents|
    ensures |r| == |idx| && forall j :: 0 <= j < |idx| ==> r[j] == sents[idx[j]]
  {
    seq(|idx|, j requires 0 <= j < |idx| => sents[idx[j]])
  }

  function CitationsOf(sents: seq<string>, idx: seq<nat>): (r: seq<Citation>)
    requires forall j :: 0 <= j < |idx| ==> idx[j] < |sents|
    ensures |r| == |idx|
    ensures forall j :: 0 <= j < |idx| ==>
      r[j].i == idx[j] && |r[j].text| <= CitationChars && |r[j].text| <= |sents[idx[j]]|
      && r[j].text == sents[idx[j]][..|r[j].text|]
      && |r[j].text| == (if |sents[idx[j]]| < CitationChars then |sents[idx[j]]| else CitationChars)
  {
    seq(|idx|, j requires 0 <= j < |idx| => Citation(idx[j], PyPrefix(sents[idx[j]], CitationChars)))
  }

  /** The ranking a retriever produced only names sentences of the document. */
  predicate RankingInRange(rank: Retriever -> seq<nat>, n: nat)
  {
    forall r: Retriever, j :: 0 <= j < |rank(r)| ==> rank(r)[j] < n
  }

  /** The module-level dictionary `DOCS` and the routes that use it. */
  class DocStore {
    var docs: map<string, Doc>

    constructor ()
      ensures docs == map[]
    {
      docs := map[];
    }

    /** `/upload` on a file whose extracted and cleaned text is `text`, with
        `docId` standing for the generated identifier. Exactly the entry
        `docId` is written; the reply reports the text's length. */
    method Upload(filename: string, text: string, docId: string) returns (out: UploadOut)
      modifies this
      ensures out == UploadOut(docId, filename, |text|)
      ensures docs == old(docs)[docId := NewDoc(filename, text)]
      ensures docId in docs && !docs[docId].hasEmb && !docs[docId].hasTfidf
      ensures forall id :: id in old(docs) && id != docId ==> id in docs && docs[id] == old(docs)[id]
    {
      var sentences := SplitSentences(text);
      var chunks := ChunkByWords(text, UploadChunkWords);
      docs := docs[docId := Doc(filename, text, sentences, chunks, false, false)];
      out := UploadOut(docId, filename, |text|);
    }

    /** `/summarize`: an unknown document is an error; mode "abstractive"
        gives the LED paragraph; any other mode gives the extractive
        summary of at most five sentences of the stored text. */
    method Summarize(docId: string, mode: string, generate: (string, GenParams) -> string)
      returns (reply: Reply<Summary>)
      ensures reply.Error? <==> docId !in docs
      ensures reply.Error? ==> reply.message == DocNotFound
      ensures docId in docs && mode == "abstractive" ==>
        var text := docs[docId].text;
        reply == Ok(if AllSpace(text) then Paragraph("") else Paragraph(FinalSummary(Strip(text), generate)))
      ensures docId in docs && mode != "abstractive" ==>
        reply == Ok(Items(SentencesOf(Ranked(SplitSentences(docs[docId].text), ExtractiveSentences))))
      ensures docId in docs && mode != "abstractive" ==>
        |reply.value.items| <= ExtractiveSentences
    {
      if docId !in docs {
        return Error(DocNotFound);
      }
      var text := docs[docId].text;
      if mode == "abstractive" {
        var summary := LedSummarize(text, false, generate);
        return Ok(summary);
      }
      var summary := ExtractiveSummary(text, ExtractiveSentences);
      return Ok(Items(summary));
    }

    /** `/index`: an unknown document or one without sentences is an error
        and changes nothing; otherwise the document gains the SBERT
        embeddings when the encoder is available (`sbertOk`), else the
        TF-IDF index, and nothing else changes. */
    method BuildIndex(docId: string, sbertOk: bool) returns (reply: Reply<IndexOut>)
      modifies this
      ensures docId !in old(docs) ==> reply == Error(IndexDocNotFound) && docs == old(docs)
      ensures docId in old(docs) && old(docs)[docId].sentences == [] ==>
        reply == Error(NoSentences) && docs == old(docs)
      ensures docId in old(docs) && old(docs)[docId].sentences != [] ==>
        var d := old(docs)[docId];
        && reply == Ok(IndexOut(docId, |d.sentences|, if sbertOk then Sbert else Tfidf))
        && docs == old(docs)[docId := d.(hasEmb := d.hasEmb || sbertOk, hasTfidf := d.hasTfidf || !sbertOk)]
    {
      if docId !in docs {
        return Error(IndexDocNotFound);
      }
      var d := docs[docId];
      if d.sentences == [] {
        return Error(NoSentences);
      }
      if sbertOk {
        docs := docs[docId := d.(hasEmb := true)];
        return Ok(IndexOut(docId, |d.sentences|, Sbert));
      }
      docs := docs[docId := d.(hasTfidf := true)];
      return Ok(IndexOut(docId, |d.sentences|, Tfidf));
    }

    /** `/ask`: an unknown document and a document without an index are
        errors; otherwise the first `k` sentences of the retriever's ranking
        are the hits, the generator answers from them joined by newlines,
        and each hit is cited with its first 300 characters. */
    method Ask(docId: string, question: string, k: int, rank: Retriever -> seq<nat>,
               generate: (string, string) -> string) returns (reply: Reply<AskOut>)
      requires docId in docs ==> RankingInRange(rank, |docs[docId].sentences|)
      ensures docId !in docs ==> reply == Error(DocNotFound)
      ensures docId in docs && !docs[docId].hasEmb && !docs[docId].hasTfidf ==> reply == Error(NotIndexed)
      ensures docId in docs && (docs[docId].hasEmb || docs[docId].hasTfidf) ==>
        var d := docs[docId];
        var idx := PyPrefix(rank(UsedRetriever(d)), k);
        && reply.Ok?
        && reply.value.answer == generate(question, JoinLines(HitTexts(d.sentences, idx)))
        && |reply.value.citations| == |idx|
        && (0 <= k ==> |reply.value.citations| <= k)
        && (forall j :: 0 <= j < |idx| ==>
              reply.value.citations[j].i == idx[j]
              && |reply.value.citations[j].text| <= CitationChars
              && |reply.value.citations[j].text| <= |d.sentences[idx[j]]|
              && reply.value.citations[j].text == d.sentences[idx[j]][..|reply.value.citations[j].text|]
              && |reply.value.citations[j].text|
                 == (if |d.sentences[idx[j]]| < CitationChars then |d.sentences[idx[j]]| else CitationChars))
    {
      if docId !in docs {
        return Error(DocNotFound);
      }
      var d := docs[docId];
      var idx: seq<nat>;
      if d.hasEmb {
        idx := PyPrefix(rank(Sbert), k);
      } else if d.hasTfidf {
        idx := PyPrefix(rank(Tfidf), k);
      } else {
        return Error(NotIndexed);
      }
      var texts := HitTexts(d.sentences, idx);
      var answer := generate(question, JoinLines(texts));
      reply := Ok(AskOut(answer, CitationsOf(d.sentences, idx)));
    }
  }

  /** A document's journey through the routes: right after `/upload`,
      `/ask` reports that the document is not indexed; after `/index`
      succeeds, `/ask` answers. */
  method UploadIndexAsk(store: DocStore, filename: string, text: string, docId: string, sbertOk: bool,
                        question: string, rank: Retriever -> seq<nat>, generate: (string, string) -> string)
      returns (early: Reply<AskOut>, indexed: Reply<IndexOut>, late: Reply<AskOut>)
    requires RankingInRange(rank, |SplitSentences(text)|)
    modifies store
    ensures early == Error(NotIndexed)
    ensures indexed.Ok? <==> SplitSentences(text) != []
    ensures indexed.Ok? ==> late.Ok?
    ensures indexed.Error? ==> late == Error(NotIndexed)
  {
    var _ := store.Upload(filename, text, docId);
    early := store.Ask(docId, question, 5, rank, generate);
    indexed := store.BuildIndex(docId, sbertOk);
    late := store.Ask(docId, question, 5, rank, generate);
  }
}
