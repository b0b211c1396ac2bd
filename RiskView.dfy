/** src/pages/Risk.jsx: the clauses shown on the risk page, those whose risk
    reaches the slider's threshold, riskiest first. The threshold is in
    hundredths, like the scores. */
module RiskView {
  import opened Seqs
  import opened MockApi

  /** The slider's starting position, 0.3. */
  const InitialThreshold := 30

  function RiskOfRow(r: Row): int
  {
    r.risk
  }

  /** `c => c.risk >= threshold`. */
  function AtLeast(threshold: int): Row -> bool
  {
    (r: Row) => r.risk >= threshold
  }

  /** `rows` after `listClauses()` with the filter and the descending sort. */
  function Shown(threshold: int): (rows: seq<Row>)
    ensures SortedDesc(rows, RiskOfRow)
    ensures multiset(rows) == multiset(Filter(ListClauses(None), AtLeast(threshold)))
  {
    SortDescSortedPerm(Filter(ListClauses(None), AtLeast(threshold)), RiskOfRow);
    SortDesc(Filter(ListClauses(None), AtLeast(threshold)), RiskOfRow)
  }

  /** Exactly the clauses whose risk reaches the threshold are shown, each
      unmodified and no more often than `listClauses()` has it, riskiest
      first. */
  lemma ShownProps(threshold: int)
    ensures var rows := Shown(threshold);
      && (forall r :: r in ListClauses(None) ==> (r in rows <==> r.risk >= threshold))
      && (forall r :: r in rows ==> r in ListClauses(None) && r.risk >= threshold)
      && SortedDesc(rows, RiskOfRow)
      && multiset(rows) <= multiset(ListClauses(None))
  {
    var all := ListClauses(None);
    var kept := Filter(all, AtLeast(threshold));
    SortDescSortedPerm(kept, RiskOfRow);
    var rows := Shown(threshold);
    forall r | r in all
      ensures r in rows <==> r.risk >= threshold
    {
      assert AtLeast(threshold)(r) <==> r.risk >= threshold;
      assert r in rows <==> r in multiset(kept);
    }
    forall r | r in rows
      ensures r in all && r.risk >= threshold
    {
      assert r in multiset(kept);
    }
  }

  /** At threshold 0 (or below) every clause is shown. */
  lemma ShownAll(threshold: int)
    requires threshold <= 0
    ensures multiset(Shown(threshold)) == multiset(ListClauses(None)) && |Shown(threshold)| == 7
  {
    var all := ListClauses(None);
    ListClausesProps(None);
    forall r | r in all
      ensures AtLeast(threshold)(r)
    {
    }
    FilterAll(all, AtLeast(threshold));
    SortDescSortedPerm(all, RiskOfRow);
  }

  /** Clauses of equal risk stay in fixture order. */
  lemma ShownStable(threshold: int, v: int)
    requires v >= threshold
    ensures WithKey(Shown(threshold), RiskOfRow, v) == WithKey(ListClauses(None), RiskOfRow, v)
  {
    var all := ListClauses(None);
    SortDescStable(Filter(all, AtLeast(threshold)), RiskOfRow, v);
    WithKeyFilter(all, AtLeast(threshold), RiskOfRow, v);
  }
}
