/**
 * The fund comparison: project every fund, set aside the ones whose projection
 * failed (each with a warning), fail when none succeeded, and order the rest by
 * final balance, highest first.  Python's sort is stable, also with
 * `reverse=True`, so funds with equal final balances keep their input order.
 */
module Ranking {
  import opened Outcomes
  import opened Calendar
  import opened Inputs
  import opened Projection

  /** A fund together with its projection: one row of the comparison. */
  datatype Ranked = Ranked(fund: Fund, result: Projection)

  /**
   * Why the comparison fails: no fund could be projected, or the end date of
   * the period lies outside years 1..9999 (`ValueError` from `datetime.date`).
   */
  datatype RankError = NoResults | EndDateOutOfRange

  /** The sort key: the final balance. */
  function Key(x: Ranked): real {
    x.result.finalBalance
  }

  /** The funds whose projection succeeded, with their projections, in input order. */
  function Successes(funds: seq<Fund>, p: Params): seq<Ranked>
    requires Valid(p.startDate)
  {
    if funds == [] then []
    else
      var f := funds[|funds| - 1];
      match Project(f, p)
      case Ok(res) => Successes(funds[..|funds| - 1], p) + [Ranked(f, res)]
      case Err(_) => Successes(funds[..|funds| - 1], p)
  }

  /** The failures of the funds whose projection failed, in input order. */
  function Warnings(funds: seq<Fund>, p: Params): seq<CalcFailure>
    requires Valid(p.startDate)
  {
    if funds == [] then []
    else
      var f := funds[|funds| - 1];
      match Project(f, p)
      case Ok(_) => Warnings(funds[..|funds| - 1], p)
      case Err(e) => Warnings(funds[..|funds| - 1], p) + [e]
  }

  /** Final balances do not increase along the sequence. */
  predicate SortedDesc(s: seq<Ranked>) {
    forall i, j :: 0 <= i < j < |s| ==> Key(s[i]) >= Key(s[j])
  }

  /**
   * Inserts `x` into a sequence sorted highest first, ahead of the first entry
   * whose key does not exceed its own.
   */
  function Insert(x: Ranked, s: seq<Ranked>): (r: seq<Ranked>)
    ensures multiset(r) == multiset(s) + multiset{x}
  {
    if s == [] || Key(s[0]) <= Key(x) then [x] + s
    else
      assert s == [s[0]] + s[1..];
      [s[0]] + Insert(x, s[1..])
  }

  /** Every entry of an insertion is the inserted entry or one of the old ones. */
  lemma InsertMembers(x: Ranked, s: seq<Ranked>, y: Ranked)
    requires y in Insert(x, s)
    ensures y == x || y in s
  {
    assert y in multiset(Insert(x, s));
    if y != x {
      assert y in multiset(s);
    }
  }

  /** Insertion keeps a sequence sorted highest first. */
  lemma {:induction false} InsertSorted(x: Ranked, s: seq<Ranked>)
    requires SortedDesc(s)
    ensures SortedDesc(Insert(x, s))
  {
    if s == [] || Key(s[0]) <= Key(x) {
      assert forall j :: 0 <= j < |s| ==> Key(s[j]) <= Key(s[0]);
    } else {
      var rest := Insert(x, s[1..]);
      InsertSorted(x, s[1..]);
      var r := Insert(x, s);
      assert r == [s[0]] + rest;
      forall i, j | 0 <= i < j < |r|
        ensures Key(r[i]) >= Key(r[j])
      {
        if i == 0 {
          assert r[j] == rest[j - 1];
          InsertMembers(x, s[1..], rest[j - 1]);
          if rest[j - 1] != x {
            var k :| 0 <= k < |s[1..]| && s[1..][k] == rest[j - 1];
            assert s[k + 1] == rest[j - 1];
          }
        } else {
          assert r[i] == rest[i - 1] && r[j] == rest[j - 1];
        }
      }
    }
  }

  /** `results.sort(key=final_balance, reverse=True)`: a stable sort, highest first. */
  function SortDesc(s: seq<Ranked>): (r: seq<Ranked>)
    ensures SortedDesc(r)
    ensures multiset(r) == multiset(s)
  {
    if s == [] then []
    else
      var rest := SortDesc(s[1..]);
      assert s == [s[0]] + s[1..];
      InsertSorted(s[0], rest);
      Insert(s[0], rest)
  }

  /** The entries of `s` whose key is `k`, in order. */
  function WithKey(s: seq<Ranked>, k: real): seq<Ranked> {
    if s == [] then []
    else if Key(s[0]) == k then [s[0]] + WithKey(s[1..], k)
    else WithKey(s[1..], k)
  }

  /**
   * Inserting into a sorted sequence puts `x` ahead of every entry with the
   * same key and leaves the order among the others alone.
   */
  lemma {:induction false} InsertWithKey(x: Ranked, s: seq<Ranked>, k: real)
    requires SortedDesc(s)
    ensures WithKey(Insert(x, s), k) == if Key(x) == k then [x] + WithKey(s, k) else WithKey(s, k)
  {
    if s == [] || Key(s[0]) <= Key(x) {
      assert Insert(x, s) == [x] + s;
      assert ([x] + s)[1..] == s;
    } else {
      assert Insert(x, s) == [s[0]] + Insert(x, s[1..]);
      InsertWithKey(x, s[1..], k);
      assert ([s[0]] + Insert(x, s[1..]))[1..] == Insert(x, s[1..]);
      if Key(x) == k {
        assert Key(s[0]) != k;
      }
    }
  }

  /** The sort is stable: for every final balance, the funds with it keep their input order. */
  lemma {:induction false} SortDescStable(s: seq<Ranked>, k: real)
    ensures WithKey(SortDesc(s), k) == WithKey(s, k)
  {
    if s != [] {
      SortDescStable(s[1..], k);
      InsertWithKey(s[0], SortDesc(s[1..]), k);
    }
  }

  /**
   * The per-fund loop of the comparison: project each fund, keep the successes,
   * warn about the failures, fail when nothing succeeded, and sort the rest by
   * final balance, highest first.
   */
  method RankFunds(funds: seq<Fund>, p: Params) returns (r: Result<seq<Ranked>, RankError>, warnings: seq<CalcFailure>)
    requires Valid(p.startDate)
    ensures warnings == Warnings(funds, p)
    ensures r.Err? <==> Successes(funds, p) == []
    ensures r.Err? ==> r.error == NoResults
    ensures r.Ok? ==> r.value == SortDesc(Successes(funds, p))
  {
    var results: seq<Ranked> := [];
    warnings := [];
    for i := 0 to |funds|
      invariant results == Successes(funds[..i], p)
      invariant warnings == Warnings(funds[..i], p)
    {
      assert funds[..i + 1][..i] == funds[..i];
      var result := CalculateReturns(funds[i], p);
      match result {
        case Ok(res) =>
          results := results + [Ranked(funds[i], res)];
        case Err(e) =>
          warnings := warnings + [e];
      }
    }
    assert funds[..|funds|] == funds;
    if results == [] {
      return Err(NoResults), warnings;
    }
    results := SortDesc(results);
    return Ok(results), warnings;
  }

  /**
   * The computation of `print_results`: the end date `add_months(start,
   * int(period))` first, then the per-fund loop. The end date fails wherever the
   * projections fail, so no fund is ever warned about and a ranking holds every
   * fund. A negative period can still fail at the end date (a start in year 1),
   * while its empty month loop lets every projection succeed.
   */
  method Compare(funds: seq<Fund>, p: Params) returns (r: Result<seq<Ranked>, RankError>, warnings: seq<CalcFailure>)
    requires Valid(p.startDate)
    ensures warnings == []
    ensures r.Err? <==> AddMonths(p.startDate, IntPeriod(p)).None? || funds == []
    ensures r.Err? ==> r.error == if AddMonths(p.startDate, IntPeriod(p)).None? then EndDateOutOfRange else NoResults
    ensures r.Ok? ==> r.value == SortDesc(Successes(funds, p)) && |r.value| == |funds|
  {
    var endDate := AddMonths(p.startDate, IntPeriod(p));
    if endDate.None? {
      return Err(EndDateOutOfRange), [];
    }
    if funds != [] {
      EndDateGuardsProjection(funds[0], p);
      AllOrNothing(funds, p);
    }
    r, warnings := RankFunds(funds, p);
    if r.Ok? {
      assert |multiset(r.value)| == |multiset(Successes(funds, p))|;
    }
  }

  /**
   * A fund appears among the successes exactly when its projection succeeded,
   * and then with that projection; a warning names a fund of the list.
   */
  lemma {:induction false} SuccessesMembers(funds: seq<Fund>, p: Params)
    requires Valid(p.startDate)
    ensures forall x :: x in Successes(funds, p) ==> x.fund in funds && Project(x.fund, p) == Ok(x.result)
    ensures forall f :: f in funds && Project(f, p).Ok? ==> Ranked(f, Project(f, p).value) in Successes(funds, p)
    ensures forall w :: w in Warnings(funds, p) ==> exists f :: f in funds && Project(f, p) == Err(w)
    ensures |Successes(funds, p)| + |Warnings(funds, p)| == |funds|
  {
    if funds != [] {
      var prefix := funds[..|funds| - 1];
      SuccessesMembers(prefix, p);
      assert funds == prefix + [funds[|funds| - 1]];
    }
  }

  /**
   * In this model, with exact arithmetic, only the calendar can make a
   * projection fail, so the outcome is all or nothing: either every fund is
   * ranked, or none is and every fund is warned about. `Decimal` failures that
   * hit a single fund are not part of this model.
   */
  lemma {:induction false} AllOrNothing(funds: seq<Fund>, p: Params)
    requires Valid(p.startDate) && funds != []
    ensures Project(funds[0], p).Ok? ==> |Successes(funds, p)| == |funds| && Warnings(funds, p) == []
    ensures Project(funds[0], p).Err? ==> Successes(funds, p) == [] && |Warnings(funds, p)| == |funds|
  {
    forall f | f in funds
      ensures Project(f, p).Ok? <==> Project(funds[0], p).Ok?
    {
      FailureIndependentOfFund(f, funds[0], p);
    }
    SameOutcome(funds, p, Project(funds[0], p).Ok?);
  }

  lemma {:induction false} SameOutcome(funds: seq<Fund>, p: Params, ok: bool)
    requires Valid(p.startDate)
    requires forall f :: f in funds ==> Project(f, p).Ok? == ok
    ensures ok ==> |Successes(funds, p)| == |funds| && Warnings(funds, p) == []
    ensures !ok ==> Successes(funds, p) == [] && |Warnings(funds, p)| == |funds|
  {
    if funds != [] {
      var prefix := funds[..|funds| - 1];
      assert forall f :: f in prefix ==> f in funds;
      SameOutcome(prefix, p, ok);
    }
  }

  /**
   * A fund whose minimum investment exceeds the initial capital is still
   * projected and ranked: the minimum only produces a warning in
   * `validate_parameters`.
   */
  lemma BelowMinimumStillRanked(funds: seq<Fund>, p: Params, f: Fund)
    requires Valid(p.startDate)
    requires f in Excluded(funds, p.initialCapital)
    requires Project(f, p).Ok?
    ensures Successes(funds, p) != []
    ensures Ranked(f, Project(f, p).value) in SortDesc(Successes(funds, p))
  {
    SuccessesMembers(funds, p);
    assert Ranked(f, Project(f, p).value) in multiset(Successes(funds, p));
  }

  /** The first row of a ranking has the highest final balance. */
  lemma BestFirst(funds: seq<Fund>, p: Params)
    requires Valid(p.startDate)
    requires Successes(funds, p) != []
    ensures var ranked := SortDesc(Successes(funds, p));
      ranked != [] && forall x :: x in ranked ==> Key(x) <= Key(ranked[0])
  {
    var ranked := SortDesc(Successes(funds, p));
    assert multiset(ranked) == multiset(Successes(funds, p));
    assert Successes(funds, p)[0] in multiset(ranked);
  }
}
