/** src/lib/mockApi.js: the front end's local fixture of seven clauses, the
    heuristic risk score, the role filter, the token-overlap search and the
    canned question answering built on it. Scores are kept in integer
    hundredths: `toFixed(2)` is modelled as rounding the exact value to the
    nearest hundredth, halves upward. */
module MockApi {
  import opened Seqs
  import opened Text
  import opened Sentences

  /** A fixture clause. */
  datatype Clause = Clause(id: nat, role: string, text: string)

  /** `CLAUSES`. */
  const Clauses: seq<Clause> := [
    Clause(1, "FACTS", "Parties executed a service agreement on 02 Jan 2024 with a 12-month term."),
    Clause(2, "ISSUE", "Whether early termination without cause is permissible under clause 9."),
    Clause(3, "ARG", "Plaintiff argues notice must be 60 days as per industry standard."),
    Clause(4, "REASON", "The Court considered contra proferentem and course of dealing."),
    Clause(5, "HOLDING", "Termination clause requires 30 days written notice."),
    Clause(6, "ORDER", "Damages limited to fees paid in the last billing cycle."),
    Clause(7, "OTHER", "Vendor may terminate at its sole discretion without liability.")
  ]

  // ----- riskScore -----

  /** The risky phrases, each matched case-insensitively anywhere in the text. */
  const RiskPatterns: seq<string> :=
    ["sole discretion", "without liability", "indemnif", "liquidated damages", "termination for convenience"]

  /** How many of the phrases `ps` occur in `s`; each counts once however
      often it occurs. */
  function PatternsFound(ps: seq<string>, s: string): (n: nat)
    ensures n <= |ps|
  {
    if ps == [] then 0 else (if Occurs(ps[0], s) then 1 else 0) + PatternsFound(ps[1..], s)
  }

  /** `hits`: the phrases are lower-case letters and spaces, so a
      case-insensitive match is a match in the lower-cased text. */
  function Hits(text: string): (h: nat)
    ensures h <= 5
  {
    PatternsFound(RiskPatterns, Lower(text))
  }

  /** The score in hundredths for `hits` phrases and a text of `len`
      characters: 0.25 per hit plus 0.35 times the length signal
      min(len / 300, 1), clamped to 1 and rounded to the nearest hundredth. */
  function RiskOf(hits: nat, len: nat): (r: nat)
    ensures r <= 100
    ensures r < 100 ==>
      300 * r - 150 <= 7500 * hits + 35 * (if len < 300 then len else 300) < 300 * r + 150
    ensures r == 100 ==> 7500 * hits + 35 * (if len < 300 then len else 300) >= 29850
    ensures hits == 0 && len >= 300 ==> r == 35
  {
    var m := if len < 300 then len else 300;
    var rounded := (7500 * hits + 35 * m + 150) / 300;
    if rounded > 100 then 100 else rounded
  }

  /** `riskScore(text)`, in hundredths. */
  function RiskScore(text: string): (r: nat)
    ensures r <= 100
  {
    RiskOf(Hits(text), |text|)
  }

  /** More hits or a longer text never lower the score. */
  lemma RiskMonotone(h1: nat, h2: nat, l1: nat, l2: nat)
    requires h1 <= h2 && l1 <= l2
    ensures RiskOf(h1, l1) <= RiskOf(h2, l2)
  {
  }

  lemma {:induction false} PatternsFoundMonotone(ps: seq<string>, a: string, b: string)
    requires forall k :: 0 <= k < |ps| && Occurs(ps[k], a) ==> Occurs(ps[k], b)
    ensures PatternsFound(ps, a) <= PatternsFound(ps, b)
  {
    if ps != [] {
      PatternsFoundMonotone(ps[1..], a, b);
    }
  }

  /** A text of the same length that matches every phrase the other matches
      (and maybe more) scores at least as high. */
  lemma MorePatternsNoLower(a: string, b: string)
    requires |a| == |b|
    requires forall k :: 0 <= k < |RiskPatterns| && Occurs(RiskPatterns[k], Lower(a)) ==>
      Occurs(RiskPatterns[k], Lower(b))
    ensures RiskScore(a) <= RiskScore(b)
  {
    PatternsFoundMonotone(RiskPatterns, Lower(a), Lower(b));
    RiskMonotone(Hits(a), Hits(b), |a|, |b|);
  }

  // ----- listClauses -----

  /** A clause annotated with its risk. */
  datatype Row = Row(id: nat, role: string, text: string, risk: nat)

  function WithRisk(c: Clause): Row
  {
    Row(c.id, c.role, c.text, RiskScore(c.text))
  }

  /** `rows`: every clause with its risk, in fixture order. */
  function AllRows(): (rows: seq<Row>)
    ensures |rows| == |Clauses|
    ensures forall k :: 0 <= k < |rows| ==> rows[k] == WithRisk(Clauses[k])
  {
    seq(|Clauses|, k requires 0 <= k < |Clauses| => WithRisk(Clauses[k]))
  }

  /** The role argument is falsy: absent or the empty string. */
  predicate NoRole(role: Option<string>)
  {
    role == None || role == Some("")
  }

  /** `listClauses(role)`. */
  function ListClauses(role: Option<string>): (rows: seq<Row>)
    ensures |rows| <= |Clauses| && multiset(rows) <= multiset(AllRows())
  {
    if NoRole(role) then AllRows() else Filter(AllRows(), HasRole(role.value))
  }

  /** `r => r.role === role`. */
  function HasRole(role: string): Row -> bool
  {
    (r: Row) => r.role == role
  }

  /** Each row of `rows` is its fixture clause plus the clause's risk. */
  lemma RowsOfClauses(r: Row)
    requires r in AllRows()
    ensures Clause(r.id, r.role, r.text) in Clauses && r.risk == RiskScore(r.text)
  {
    var k :| 0 <= k < |AllRows()| && AllRows()[k] == r;
    var c := Clauses[k];
    assert r == WithRisk(c);
    assert c == Clause(r.id, r.role, r.text);
  }

  /** Without a role every clause comes back; with one, exactly the clauses
      of that role, in fixture order; each row is its clause plus the
      clause's risk score. */
  lemma ListClausesProps(role: Option<string>)
    ensures NoRole(role) ==> ListClauses(role) == AllRows() && |ListClauses(role)| == 7
    ensures IsSubseq(ListClauses(role), AllRows())
    ensures forall r :: r in ListClauses(role) ==>
      Clause(r.id, r.role, r.text) in Clauses && r.risk == RiskScore(r.text)
    ensures !NoRole(role) ==> forall r :: r in AllRows() ==> (r in ListClauses(role) <==> r.role == role.value)
  {
    var rows := ListClauses(role);
    if NoRole(role) {
      PrefixIsSubseq(AllRows(), AllRows());
    } else {
      FilterIsSubseq(AllRows(), HasRole(role.value));
      forall r | r in AllRows()
        ensures r in rows <==> r.role == role.value
      {
        assert HasRole(role.value)(r) <==> r.role == role.value;
      }
    }
    forall r | r in rows
      ensures Clause(r.id, r.role, r.text) in Clauses && r.risk == RiskScore(r.text)
    {
      RowsOfClauses(r);
    }
  }

  // ----- semanticSearch -----

  /** Length of the run of `\w` characters that starts `s`. */
  function WordCharRun(s: string): (n: nat)
    ensures n <= |s|
    ensures forall i :: 0 <= i < n ==> IsWordChar(s[i])
  {
    if s != [] && IsWordChar(s[0]) then 1 + WordCharRun(s[1..]) else 0
  }

  /** `s.split(/\W+/).filter(Boolean)`: the maximal runs of `\w`
      characters, in order. */
  function WordRuns(s: string): (ws: seq<string>)
    ensures forall k :: 0 <= k < |ws| ==> ws[k] != [] && forall i :: 0 <= i < |ws[k]| ==> IsWordChar(ws[k][i])
    decreases |s|
  {
    if s == [] then []
    else if !IsWordChar(s[0]) then WordRuns(s[1..])
    else
      var n := WordCharRun(s);
      [s[..n]] + WordRuns(s[n..])
  }

  /** The query's tokens, `q`. */
  function QueryTokens(query: string): seq<string>
  {
    WordRuns(Lower(query))
  }

  /** A clause's `tokens`. `split(/\W+/)` may also yield empty strings at
      the ends, but every query token is non-empty, so `includes` sees only
      the runs. */
  function TextTokens(text: string): seq<string>
  {
    WordRuns(Lower(text))
  }

  /** `q.filter(t => tokens.includes(t)).length`. */
  function Found(q: seq<string>, tokens: seq<string>): (m: nat)
    ensures m <= |q|
  {
    if q == [] then 0 else (if q[0] in tokens then 1 else 0) + Found(q[1..], tokens)
  }

  /** The overlap score in hundredths: the share of query tokens (counted
      with repetition) found among the clause's tokens, rounded to the
      nearest hundredth; 0 for a query without tokens. */
  function Overlap(q: seq<string>, text: string): (r: nat)
    ensures r <= 100
    ensures q != [] ==>
      var m := Found(q, TextTokens(text));
      2 * |q| * r - |q| <= 200 * m < 2 * |q| * r + |q|
    ensures q == [] ==> r == 0
  {
    var m := Found(q, TextTokens(text));
    var n := if q == [] then 1 else |q|;
    RoundBound(m, n);
    (200 * m + n) / (2 * n)
  }

  lemma RoundBound(m: nat, n: nat)
    requires 0 < n && m <= n
    ensures (200 * m + n) / (2 * n) <= 100
    ensures 2 * n * ((200 * m + n) / (2 * n)) <= 200 * m + n < 2 * n * ((200 * m + n) / (2 * n)) + 2 * n
  {
    var a, d := 200 * m + n, 2 * n;
    var q, r := a / d, a % d;
    assert a == d * q + r && 0 <= r < d;
    if q > 100 {
      MulMonotone(d, 101, q);
      assert false;
    }
  }

  lemma MulMonotone(d: nat, x: nat, y: nat)
    requires x <= y
    ensures d * x <= d * y
  {
    assert d * y == d * x + d * (y - x);
  }

  /** A search result: the row and its overlap score. */
  datatype Hit = Hit(id: nat, role: string, text: string, risk: nat, score: nat)

  function ScoreOfHit(h: Hit): int
  {
    h.score
  }

  /** Every row of `listClauses()` with its overlap score. */
  function ScoredRows(q: seq<string>): (hs: seq<Hit>)
    ensures |hs| == |AllRows()|
    ensures forall k :: 0 <= k < |hs| ==>
      var r := AllRows()[k]; hs[k] == Hit(r.id, r.role, r.text, r.risk, Overlap(q, r.text))
  {
    var rows := AllRows();
    seq(|rows|, k requires 0 <= k < |rows| =>
      Hit(rows[k].id, rows[k].role, rows[k].text, rows[k].risk, Overlap(q, rows[k].text)))
  }

  predicate Scores(h: Hit)
  {
    h.score > 0
  }

  /** The rows whose rounded score is positive, in fixture order. */
  function Matching(q: seq<string>): seq<Hit>
  {
    Filter(ScoredRows(q), Scores)
  }

  /** `semanticSearch(query)`: drop the zero scores, stable sort by score,
      largest first, keep eight. */
  function SemanticSearch(query: string): (hits: seq<Hit>)
    ensures |hits| <= 8
  {
    PyPrefix(SortDesc(Matching(QueryTokens(query)), ScoreOfHit), 8)
  }

  /** Every matching hit is a fixture row scored by its overlap. */
  lemma MatchingRow(q: seq<string>, h: Hit)
    requires h in Matching(q)
    ensures 0 < h.score <= 100 && Row(h.id, h.role, h.text, h.risk) in AllRows()
      && h.score == Overlap(q, h.text)
  {
    var k :| 0 <= k < |ScoredRows(q)| && ScoredRows(q)[k] == h;
    assert AllRows()[k] == Row(h.id, h.role, h.text, h.risk);
  }

  /** At most eight hits, each a fixture row with its positive overlap score,
      in non-increasing score order; no hit is missed unless eight others
      scored at least as high. */
  lemma SearchProps(query: string)
    ensures var hits := SemanticSearch(query);
      && |hits| <= 8
      && SortedDesc(hits, ScoreOfHit)
      && (forall h :: h in hits ==>
            0 < h.score <= 100 && Row(h.id, h.role, h.text, h.risk) in AllRows()
            && h.score == Overlap(QueryTokens(query), h.text))
      && (|hits| < 8 ==> forall h :: h in Matching(QueryTokens(query)) ==> h in hits)
  {
    var q := QueryTokens(query);
    var all := Matching(q);
    var sorted := SortDesc(all, ScoreOfHit);
    SortDescSortedPerm(all, ScoreOfHit);
    var hits := SemanticSearch(query);
    forall h | h in hits
      ensures 0 < h.score <= 100 && Row(h.id, h.role, h.text, h.risk) in AllRows()
        && h.score == Overlap(q, h.text)
    {
      assert h in multiset(sorted);
      MatchingRow(q, h);
    }
    if |hits| < 8 {
      assert hits == sorted;
      forall h | h in all
        ensures h in hits
      {
        assert h in multiset(all);
      }
    }
  }

  /** Ties keep fixture order: for every score, the hits with that score are
      the first matching rows with that score, in fixture order. */
  lemma SearchStable(query: string, v: int)
    ensures var kept := WithKey(SemanticSearch(query), ScoreOfHit, v);
      var all := WithKey(Matching(QueryTokens(query)), ScoreOfHit, v);
      |kept| <= |all| && kept == all[..|kept|]
  {
    var all := Matching(QueryTokens(query));
    var sorted := SortDesc(all, ScoreOfHit);
    SortDescSortedPerm(all, ScoreOfHit);
    SortDescStable(all, ScoreOfHit, v);
    WithKeyPrefix(sorted, |SemanticSearch(query)|, ScoreOfHit, v);
  }

  /** A query without word tokens finds nothing. */
  lemma SearchEmptyQuery(query: string)
    requires QueryTokens(query) == []
    ensures SemanticSearch(query) == []
  {
    var all := ScoredRows([]);
    forall h | h in all
      ensures !Scores(h)
    {
      var k :| 0 <= k < |all| && all[k] == h;
    }
    FilterNone(all, Scores);
  }

  // ----- ragAnswer -----

  datatype Cite = Cite(id: nat, role: string)

  datatype RagOut = RagOut(answer: string, citations: seq<Cite>)

  const AnswerPrefix := "Likely answer: "
  const NoAnswer := "No relevant clause found. Try rephrasing."

  function CitesOf(hs: seq<Hit>): (cs: seq<Cite>)
    ensures |cs| == |hs|
    ensures forall j :: 0 <= j < |hs| ==> cs[j] == Cite(hs[j].id, hs[j].role)
  {
    seq(|hs|, j requires 0 <= j < |hs| => Cite(hs[j].id, hs[j].role))
  }

  /** `ragAnswer(question)`. */
  function RagAnswer(question: string): (r: RagOut)
    ensures |r.citations| <= 3 && |r.citations| <= |SemanticSearch(question)|
  {
    var hits := SemanticSearch(question);
    RagOut(if |hits| > 0 then AnswerPrefix + hits[0].text else NoAnswer, CitesOf(PyPrefix(hits, 3)))
  }

  /** A clause that shares a token with the query is among the matching rows. */
  lemma ScoringClauseMatches(q: seq<string>, k: nat)
    requires k < |Clauses| && Overlap(q, Clauses[k].text) > 0
    ensures ScoredRows(q)[k] in Matching(q) && ScoredRows(q)[k].score == Overlap(q, Clauses[k].text)
  {
    assert AllRows()[k].text == Clauses[k].text;
    assert Scores(ScoredRows(q)[k]);
  }

  /** The search finds nothing exactly when no clause shares a token with
      the query. */
  lemma SearchEmptyIff(query: string)
    ensures SemanticSearch(query) == [] <==>
      forall k :: 0 <= k < |Clauses| ==> Overlap(QueryTokens(query), Clauses[k].text) == 0
  {
    if SemanticSearch(query) == [] {
      SearchEmptyNoOverlap(query);
    } else {
      SearchNonEmptyOverlap(query);
    }
  }

  lemma SearchEmptyNoOverlap(query: string)
    requires SemanticSearch(query) == []
    ensures forall k :: 0 <= k < |Clauses| ==> Overlap(QueryTokens(query), Clauses[k].text) == 0
  {
    var q := QueryTokens(query);
    SortDescSortedPerm(Matching(q), ScoreOfHit);
    forall k | 0 <= k < |Clauses|
      ensures Overlap(q, Clauses[k].text) == 0
    {
      if Overlap(q, Clauses[k].text) > 0 {
        ScoringClauseMatches(q, k);
      }
    }
  }

  lemma SearchNonEmptyOverlap(query: string)
    requires SemanticSearch(query) != []
    ensures exists k :: 0 <= k < |Clauses| && Overlap(QueryTokens(query), Clauses[k].text) > 0
  {
    var h := SemanticSearch(query)[0];
    SearchProps(query);
    assert h in SemanticSearch(query);
    RowsOfClauses(Row(h.id, h.role, h.text, h.risk));
    var k :| 0 <= k < |Clauses| && Clauses[k] == Clause(h.id, h.role, h.text);
    assert Overlap(QueryTokens(query), Clauses[k].text) > 0;
  }

  /** The top hit scores at least as high as every fixture clause. */
  lemma TopHitIsBest(query: string)
    requires SemanticSearch(query) != []
    ensures forall k :: 0 <= k < |Clauses| ==>
      Overlap(QueryTokens(query), Clauses[k].text) <= SemanticSearch(query)[0].score
  {
    var q := QueryTokens(query);
    var all := Matching(q);
    var sorted := SortDesc(all, ScoreOfHit);
    SortDescSortedPerm(all, ScoreOfHit);
    forall k | 0 <= k < |Clauses|
      ensures Overlap(q, Clauses[k].text) <= SemanticSearch(query)[0].score
    {
      if Overlap(q, Clauses[k].text) > 0 {
        ScoringClauseMatches(q, k);
        assert ScoredRows(q)[k] in multiset(sorted);
        var j :| 0 <= j < |sorted| && sorted[j] == ScoredRows(q)[k];
        if j > 0 {
          assert ScoreOfHit(sorted[0]) >= ScoreOfHit(sorted[j]);
        }
      }
    }
  }

  /** The answer quotes the best-scoring clause (no fixture clause overlaps
      the question more), and the canned reply comes exactly when no clause
      shares a token with the question; the citations are the `{id, role}`
      of the first three hits, in rank order. */
  lemma RagAnswerProps(question: string)
    ensures var r := RagAnswer(question);
      var q := QueryTokens(question);
      var hits := SemanticSearch(question);
      && (r.answer == NoAnswer <==> forall k :: 0 <= k < |Clauses| ==> Overlap(q, Clauses[k].text) == 0)
      && (hits != [] ==>
            && r.answer == AnswerPrefix + hits[0].text
            && forall k :: 0 <= k < |Clauses| ==> Overlap(q, Clauses[k].text) <= hits[0].score)
      && |r.citations| == (if |hits| < 3 then |hits| else 3)
      && (forall j :: 0 <= j < |r.citations| ==> r.citations[j] == Cite(hits[j].id, hits[j].role))
  {
    var hits := SemanticSearch(question);
    var r := RagAnswer(question);
    SearchEmptyIff(question);
    if hits != [] {
      TopHitIsBest(question);
      assert r.answer[..|AnswerPrefix|] == AnswerPrefix;
      assert NoAnswer[..|AnswerPrefix|] != AnswerPrefix by {
        assert NoAnswer[0] == 'N' && AnswerPrefix[0] == 'L';
      }
    }
  }
}
