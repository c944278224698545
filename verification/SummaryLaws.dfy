/**
 Laws of the summaries: they do not depend on the order of the rows, categories add up
 to months and months to the whole, and budgets agree with the grouped expenses.
 */
module SummaryLaws {
  import opened Sorting
  import opened Summaries

  /******* Row order *******/

  lemma SameRows(rows: seq<Tx>, shuffled: seq<Tx>)
    requires multiset(rows) == multiset(shuffled)
    ensures forall t :: t in rows <==> t in shuffled
  {
    assert forall t :: t in rows <==> t in multiset(rows);
    assert forall t :: t in shuffled <==> t in multiset(shuffled);
  }

  lemma EntriesIgnoreOrder(rows: seq<Tx>, shuffled: seq<Tx>)
    requires multiset(rows) == multiset(shuffled)
    ensures EntrySet(rows) == EntrySet(shuffled)
    ensures MonthSet(rows) == MonthSet(shuffled)
  {
    SameRows(rows, shuffled);
    forall t | t in rows
      ensures EntryOf(rows, Month(t), t.category) == EntryOf(shuffled, Month(t), t.category)
      ensures MonthEntry(rows, Month(t)) == MonthEntry(shuffled, Month(t))
    {
      EntriesIgnoreOrderAt(rows, shuffled, Month(t), t.category);
      MonthIgnoresOrder(rows, shuffled, Month(t));
    }
    forall e ensures e in EntrySet(rows) <==> e in EntrySet(shuffled) {
      if e in EntrySet(rows) {
        var t :| t in rows && e == EntryOf(rows, Month(t), t.category);
        assert t in shuffled && e == EntryOf(shuffled, Month(t), t.category);
      }
      if e in EntrySet(shuffled) {
        var t :| t in shuffled && e == EntryOf(shuffled, Month(t), t.category);
        assert t in rows && e == EntryOf(rows, Month(t), t.category);
      }
    }
    forall e ensures e in MonthSet(rows) <==> e in MonthSet(shuffled) {
      if e in MonthSet(rows) {
        var t :| t in rows && e == MonthEntry(rows, Month(t));
        assert t in shuffled && e == MonthEntry(shuffled, Month(t));
      }
      if e in MonthSet(shuffled) {
        var t :| t in shuffled && e == MonthEntry(shuffled, Month(t));
        assert t in rows && e == MonthEntry(rows, Month(t));
      }
    }
  }

  // No two entries of the rows are left unordered by the comparator.
  ghost predicate TieFree(le: Collation, rows: seq<Tx>) {
    forall d, e :: d in EntrySet(rows) && e in EntrySet(rows) && EntryLe(le, d, e) && EntryLe(le, e, d) ==> d == e
  }

  ghost predicate CategoriesIgnoreOrder(le: Collation, rows: seq<Tx>) {
    forall shuffled :: multiset(shuffled) == multiset(rows) ==> CategoryMonths(le, shuffled) == CategoryMonths(le, rows)
  }

  lemma TieFreeMonthsAreApart(le: Collation, rows: seq<Tx>)
    requires TieFree(le, rows)
    ensures MonthsApart(le, rows)
  {
    forall t, u | t in rows && u in rows && Tied(le, Month(t), Month(u)) ensures Month(t) == Month(u) {
      assert EntryOf(rows, Month(t), t.category) in EntrySet(rows);
      assert EntryOf(rows, Month(u), u.category) in EntrySet(rows);
    }
  }

  lemma OneOrder(le: Collation, rows: seq<Tx>, shuffled: seq<Tx>)
    requires TotalPreorder(le) && KeysFaithful(rows) && TieFree(le, rows)
    requires multiset(shuffled) == multiset(rows)
    ensures CategoryMonths(le, shuffled) == CategoryMonths(le, rows)
  {
    SameRows(rows, shuffled);
    EntriesIgnoreOrder(rows, shuffled);
    ValuesOfFaithfulKeys(rows);
    ValuesOfFaithfulKeys(shuffled);
    TieFreeMonthsAreApart(le, rows);
    TieFreeMonthsAreApart(le, shuffled);
    CategoryMonthsAreSorted(le, rows);
    CategoryMonthsAreSorted(le, shuffled);
    var out := CategoryMonths(le, shuffled);
    SetHasNoDuplicates(out, EntrySet(rows));
    forall x, y | x in out && y in out && EntryOrder(le)(x, y) && EntryOrder(le)(y, x) ensures x == y {
      assert EntryLe(le, x, y) && EntryLe(le, y, x);
    }
    SortedIsUnique(EntryOrder(le), out, CategoryMonths(le, rows));
  }

  // The rows with this one first.
  ghost function Fronted(t: Tx, rows: seq<Tx>): (r: seq<Tx>)
    requires t in rows
    ensures multiset(r) == multiset(rows) && r != [] && r[0] == t && r == [t] + r[1..]
  {
    var i :| 0 <= i < |rows| && rows[i] == t;
    assert rows == rows[..i] + [t] + rows[i + 1..];
    [t] + (rows[..i] + rows[i + 1..])
  }

  // The row that comes first names the first entry.
  lemma FrontedLeads(t: Tx, rows: seq<Tx>)
    requires t in rows
    ensures var v := Values(Fronted(t, rows));
      v != [] && EntryKey(v[0]) == MapKey(t) && v[0].month == Month(t) && v[0].category == t.category
  {
    var r := Fronted(t, rows);
    FirstRowIsFirstSeen(MapKey, t, r[1..]);
    FirstRowLeads(t, r[1..]);
  }

  lemma OrderFreeKeysAreFaithful(le: Collation, rows: seq<Tx>)
    requires CategoriesIgnoreOrder(le, rows)
    ensures KeysFaithful(rows)
  {
    forall t, u | t in rows && u in rows && MapKey(t) == MapKey(u)
      ensures Month(t) == Month(u) && t.category == u.category
    {
      var first, second := Values(Fronted(t, rows)), Values(Fronted(u, rows));
      FrontedLeads(t, rows);
      FrontedLeads(u, rows);
      FirstSeenHolds(MapKey, Fronted(t, rows));
      assert CategoryMonths(le, Fronted(t, rows)) == CategoryMonths(le, Fronted(u, rows));
      assert second[0] in multiset(second) && multiset(second) == multiset(first);
      var i :| 0 <= i < |first| && first[i] == second[0];
      assert FirstSeen(MapKey, Fronted(t, rows))[i] == MapKey(t) == FirstSeen(MapKey, Fronted(t, rows))[0];
      assert i == 0;
    }
  }

  // A tie is resolved in favour of the pair whose row comes first.
  lemma TieFollowsTheRows(le: Collation, rows: seq<Tx>, t: Tx, e: CategoryMonth)
    requires KeysFaithful(rows) && t in rows && e in EntrySet(rows)
    requires var d := EntryOf(rows, Month(t), t.category); d != e && EntryLe(le, d, e)
    ensures Before(CategoryMonths(le, Fronted(t, rows)), EntryOf(rows, Month(t), t.category), e)
  {
    var r, d := Fronted(t, rows), EntryOf(rows, Month(t), t.category);
    var v := Values(r);
    SameRows(rows, r);
    EntriesIgnoreOrder(rows, r);
    ValuesOfFaithfulKeys(r);
    FrontedLeads(t, rows);
    KeyEntryIsPairEntry(r, t);
    assert v[0] == EntryOf(r, Month(t), t.category);
    EntriesIgnoreOrderAt(rows, r, Month(t), t.category);
    assert e in multiset(v);
    var j :| 0 <= j < |v| && v[j] == e;
    assert Before(v, d, e);
    SortIsStable(EntryOrder(le), v, d, e);
  }

  lemma OrderFreeIsTieFree(le: Collation, rows: seq<Tx>)
    requires CategoriesIgnoreOrder(le, rows)
    ensures TieFree(le, rows)
  {
    OrderFreeKeysAreFaithful(le, rows);
    forall d, e | d in EntrySet(rows) && e in EntrySet(rows) && EntryLe(le, d, e) && EntryLe(le, e, d) ensures d == e {
      if d != e {
        var t :| t in rows && d == EntryOf(rows, Month(t), t.category);
        var u :| u in rows && e == EntryOf(rows, Month(u), u.category);
        TieFollowsTheRows(le, rows, t, e);
        TieFollowsTheRows(le, rows, u, d);
        assert CategoryMonths(le, Fronted(t, rows)) == CategoryMonths(le, rows) == CategoryMonths(le, Fronted(u, rows));
        ValuesAreDistinct(rows);
        SortKeepsDistinct(EntryOrder(le), Values(rows));
        NotBothBefore(CategoryMonths(le, rows), d, e);
        assert false;
      }
    }
  }

  // For any total preorder on strings: the result is the same for every order of the rows
  // exactly when no two pairs share a key and no two entries tie.
  lemma CategoryMonthIgnoresRowOrderIff(le: Collation, rows: seq<Tx>)
    requires TotalPreorder(le)
    ensures CategoriesIgnoreOrder(le, rows) <==> KeysFaithful(rows) && TieFree(le, rows)
  {
    if KeysFaithful(rows) && TieFree(le, rows) {
      forall shuffled | multiset(shuffled) == multiset(rows)
        ensures CategoryMonths(le, shuffled) == CategoryMonths(le, rows)
      {
        OneOrder(le, rows, shuffled);
      }
    }
    if CategoriesIgnoreOrder(le, rows) {
      OrderFreeKeysAreFaithful(le, rows);
      OrderFreeIsTieFree(le, rows);
    }
  }

  // Two categories of one month that tie come out in the order they went in.
  lemma TiedCategoriesKeepRowOrder(le: Collation, t: Tx, u: Tx)
    requires |t.date| == 10 && |u.date| == 10 && Month(t) == Month(u)
    requires t.category != u.category && Tied(le, t.category, u.category)
    ensures var d, e := EntryOf([t, u], Month(t), t.category), EntryOf([t, u], Month(u), u.category);
      CategoryMonths(le, [t, u]) == [d, e] && CategoryMonths(le, [u, t]) == [e, d]
  {
    TwoTiedRows(le, t, u, [t, u]);
    TwoTiedRows(le, u, t, [t, u]);
  }

  // The precomposed and the decomposed spelling of one word, which localeCompare must
  // treat as equal.
  lemma EquivalentSpellingsTie(le: Collation) returns (t: Tx, u: Tx)
    requires Tied(le, "caf\U{E9}", "cafe\U{301}")
    ensures IsoDates([t, u]) && CategoryMonths(le, [t, u]) != CategoryMonths(le, [u, t])
  {
    t, u := Tx(1.0, "2025-01-05", "caf\U{E9}"), Tx(1.0, "2025-01-05", "cafe\U{301}");
    assert |t.category| != |u.category|;
    TiedCategoriesKeepRowOrder(le, t, u);
    assert CategoryMonths(le, [t, u])[0].category == t.category;
    assert CategoryMonths(le, [u, t])[0].category == u.category;
  }

  lemma EntriesIgnoreOrderAt(rows: seq<Tx>, shuffled: seq<Tx>, month: string, category: string)
    requires multiset(rows) == multiset(shuffled)
    ensures EntryOf(rows, month, category) == EntryOf(shuffled, month, category)
  {
    FlowIgnoresOrder(Expense, rows, shuffled, ByPair, [month, category]);
    FlowIgnoresOrder(Income, rows, shuffled, ByPair, [month, category]);
  }

  lemma TwoTiedRows(le: Collation, t: Tx, u: Tx, rows: seq<Tx>)
    requires |t.date| == 10 && |u.date| == 10 && Month(t) == Month(u) && t.category != u.category
    requires le(t.category, u.category) && multiset(rows) == multiset([t, u])
    ensures CategoryMonths(le, [t, u]) == [EntryOf(rows, Month(t), t.category), EntryOf(rows, Month(u), u.category)]
  {
    var d, e := EntryOf(rows, Month(t), t.category), EntryOf(rows, Month(u), u.category);
    EntriesIgnoreOrderAt(rows, [t, u], Month(t), t.category);
    EntriesIgnoreOrderAt(rows, [t, u], Month(u), u.category);
    TwoValues(t, u);
    SortTwo(EntryOrder(le), d, e);
  }

  lemma TwoValues(t: Tx, u: Tx)
    requires |t.date| == 10 && |u.date| == 10 && t.category != u.category
    ensures Values([t, u]) == [EntryOf([t, u], Month(t), t.category), EntryOf([t, u], Month(u), u.category)]
  {
    IsoDatesAreFaithful([t, u]);
    KeysNamePairs(t, u);
    FirstSeenOfTwo(MapKey, t, u);
    KeyEntryIsPairEntry([t, u], t);
    KeyEntryIsPairEntry([t, u], u);
  }

  // Months only tie when they are equal, exactly when the totals do not depend on the
  // order of the rows.
  lemma MonthlyTotalsIgnoreRowOrderIff(le: Collation, rows: seq<Tx>)
    requires TotalPreorder(le)
    ensures (forall shuffled :: multiset(shuffled) == multiset(rows) ==> TotalsByMonth(le, shuffled) == TotalsByMonth(le, rows))
            <==> MonthsApart(le, rows)
  {
    if MonthsApart(le, rows) {
      forall shuffled | multiset(shuffled) == multiset(rows)
        ensures TotalsByMonth(le, shuffled) == TotalsByMonth(le, rows)
      {
        OneMonthOrder(le, rows, shuffled);
      }
    }
    if forall shuffled :: multiset(shuffled) == multiset(rows) ==> TotalsByMonth(le, shuffled) == TotalsByMonth(le, rows) {
      forall t, u | t in rows && u in rows && Tied(le, Month(t), Month(u)) ensures Month(t) == Month(u) {
        if Month(t) != Month(u) {
          MonthTieFollowsTheRows(le, rows, t, u);
          MonthTieFollowsTheRows(le, rows, u, t);
          assert TotalsByMonth(le, Fronted(t, rows)) == TotalsByMonth(le, rows) == TotalsByMonth(le, Fronted(u, rows));
          MonthValuesAreTheEntries(rows);
          SetHasNoDuplicates(TotalsByMonth(le, rows), MonthSet(rows));
          NotBothBefore(TotalsByMonth(le, rows), MonthEntry(rows, Month(t)), MonthEntry(rows, Month(u)));
          assert false;
        }
      }
    }
  }

  lemma OneMonthOrder(le: Collation, rows: seq<Tx>, shuffled: seq<Tx>)
    requires TotalPreorder(le) && MonthsApart(le, rows) && multiset(shuffled) == multiset(rows)
    ensures TotalsByMonth(le, shuffled) == TotalsByMonth(le, rows)
  {
    EntriesIgnoreOrder(rows, shuffled);
    MonthValuesAreTheEntries(rows);
    MonthValuesAreTheEntries(shuffled);
    TotalsAreSorted(le, rows);
    TotalsAreSorted(le, shuffled);
    var out := TotalsByMonth(le, shuffled);
    SetHasNoDuplicates(out, MonthSet(rows));
    forall x, y | x in out && y in out && MonthOrder(le)(x, y) && MonthOrder(le)(y, x) ensures x == y {
      assert Tied(le, x.month, y.month);
    }
    SortedIsUnique(MonthOrder(le), out, TotalsByMonth(le, rows));
  }

  lemma MonthTieFollowsTheRows(le: Collation, rows: seq<Tx>, t: Tx, u: Tx)
    requires t in rows && u in rows && Month(t) != Month(u) && le(Month(t), Month(u))
    ensures Before(TotalsByMonth(le, Fronted(t, rows)), MonthEntry(rows, Month(t)), MonthEntry(rows, Month(u)))
  {
    var r, d, e := Fronted(t, rows), MonthEntry(rows, Month(t)), MonthEntry(rows, Month(u));
    var v := MonthValues(r);
    EntriesIgnoreOrder(rows, r);
    MonthValuesAreTheEntries(r);
    FirstRowIsFirstSeen(Month, t, r[1..]);
    MonthIgnoresOrder(rows, r, Month(t));
    assert v[0] == d;
    assert e in MonthSet(rows) && e in multiset(v);
    var j :| 0 <= j < |v| && v[j] == e;
    assert Before(v, d, e);
    SortIsStable(MonthOrder(le), v, d, e);
  }

  lemma MonthIgnoresOrder(rows: seq<Tx>, shuffled: seq<Tx>, month: string)
    requires multiset(rows) == multiset(shuffled)
    ensures MonthEntry(rows, month) == MonthEntry(shuffled, month)
  {
    FlowIgnoresOrder(Expense, rows, shuffled, ByMonth, [month]);
    FlowIgnoresOrder(Income, rows, shuffled, ByMonth, [month]);
  }

  // The budget lines come out the same, ties included, whatever order the rows came in.
  lemma {:induction false} BudgetIgnoresRowOrder(rows: seq<Tx>, shuffled: seq<Tx>, month: string, budgets: seq<BudgetLine>)
    requires multiset(rows) == multiset(shuffled)
    ensures BudgetStatuses(rows, month, budgets) == BudgetStatuses(shuffled, month, budgets)
  {
    forall i | 0 <= i < |budgets|
      ensures StatusOf(rows, month, budgets[i]) == StatusOf(shuffled, month, budgets[i])
    {
      FlowIgnoresOrder(Expense, rows, shuffled, SpentIn(month), [budgets[i].category]);
    }
    assert Statuses(rows, month, budgets) == Statuses(shuffled, month, budgets);
  }

  /******* Conservation *******/

  function Of(side: Side, e: CategoryMonth): real {
    if side.Expense? then e.expense else e.income
  }

  // The entries of one month, added up.
  function MonthSum(side: Side, out: seq<CategoryMonth>, month: string): real
    decreases out
  {
    if out == [] then 0.0
    else (if out[0].month == month then Of(side, out[0]) else 0.0) + MonthSum(side, out[1..], month)
  }

  function MonthTags(out: seq<CategoryMonth>, month: string): seq<seq<string>>
    decreases out
  {
    if out == [] then []
    else (if out[0].month == month then [[out[0].month, out[0].category]] else []) + MonthTags(out[1..], month)
  }

  ghost predicate AreEntries(rows: seq<Tx>, out: seq<CategoryMonth>) {
    && NoDuplicates(out)
    && forall i :: 0 <= i < |out| ==> out[i] == EntryOf(rows, out[i].month, out[i].category)
  }

  lemma OutIsEntries(rows: seq<Tx>, out: seq<CategoryMonth>)
    requires multiset(out) == multiset(EntrySet(rows))
    ensures AreEntries(rows, out)
    ensures forall e :: e in out <==> e in EntrySet(rows)
  {
    assert forall e :: e in out <==> e in multiset(out);
    forall i, j | 0 <= i < j < |out| ensures out[i] != out[j] {
      if out[i] == out[j] {
        Twice(out, i, j);
        assert false;
      }
    }
    forall i | 0 <= i < |out| ensures out[i] == EntryOf(rows, out[i].month, out[i].category) {
      assert out[i] in multiset(out);
      assert out[i] in EntrySet(rows);
    }
  }

  lemma SamePair(a: string, b: string, c: string, d: string)
    ensures [a, b] == [c, d] <==> a == c && b == d
  {
  }

  lemma {:induction false} MonthTagsHold(rows: seq<Tx>, out: seq<CategoryMonth>, month: string)
    requires AreEntries(rows, out)
    ensures DistinctTags(MonthTags(out, month))
    ensures forall tag :: tag in MonthTags(out, month) <==>
      exists i :: 0 <= i < |out| && out[i].month == month && tag == [out[i].month, out[i].category]
    decreases out
  {
    if out != [] {
      MonthTagsHold(rows, out[1..], month);
      var first := [out[0].month, out[0].category];
      forall i | 0 <= i < |out[1..]| ensures [out[1..][i].month, out[1..][i].category] != first {
        assert out[1..][i] == out[i + 1] && out[i + 1] != out[0];
        SamePair(out[i + 1].month, out[i + 1].category, out[0].month, out[0].category);
      }
      assert first !in MonthTags(out[1..], month);
      assert MonthTags(out, month) == (if out[0].month == month then [first] else []) + MonthTags(out[1..], month);
      forall tag ensures tag in MonthTags(out, month) <==>
        exists i :: 0 <= i < |out| && out[i].month == month && tag == [out[i].month, out[i].category]
      {
        if i :| 0 <= i < |out| && out[i].month == month && tag == [out[i].month, out[i].category] {
          if i > 0 { assert out[1..][i - 1] == out[i]; }
        }
        if tag in MonthTags(out[1..], month) {
          var i :| 0 <= i < |out[1..]| && out[1..][i].month == month && tag == [out[1..][i].month, out[1..][i].category];
          assert out[i + 1].month == month;
        }
      }
    }
  }

  lemma {:induction false} MonthSumIsFlows(side: Side, rows: seq<Tx>, out: seq<CategoryMonth>, month: string)
    requires forall i :: 0 <= i < |out| ==> out[i] == EntryOf(rows, out[i].month, out[i].category)
    ensures MonthSum(side, out, month) == SumFlows(side, rows, ByPair, MonthTags(out, month))
    decreases out
  {
    if out != [] {
      MonthSumIsFlows(side, rows, out[1..], month);
      if out[0].month == month {
        assert MonthTags(out, month)[1..] == MonthTags(out[1..], month);
      } else {
        assert MonthTags(out, month) == MonthTags(out[1..], month);
      }
    }
  }

  // A month's categories add up to its entry in the monthly totals, on either side.
  lemma CategoriesAddUpToMonths(side: Side, rows: seq<Tx>, out: seq<CategoryMonth>, month: string)
    requires multiset(out) == multiset(EntrySet(rows))
    ensures MonthSum(side, out, month) ==
            if side.Expense? then MonthEntry(rows, month).expense else MonthEntry(rows, month).income
  {
    OutIsEntries(rows, out);
    MonthTagsHold(rows, out, month);
    forall t | t in rows
      ensures TagOf(ByPair, t) in MonthTags(out, month) <==> TagOf(ByMonth, t) == [month]
    {
      assert EntryOf(rows, Month(t), t.category) in EntrySet(rows);
      var i :| 0 <= i < |out| && out[i] == EntryOf(rows, Month(t), t.category);
      assert out[i].month == Month(t);
    }
    MonthSumIsFlows(side, rows, out, month);
    GroupsAddUp(side, rows, ByPair, MonthTags(out, month), ByMonth, [month]);
  }

  function SumNets(out: seq<MonthTotals>): real
    decreases out
  {
    if out == [] then 0.0 else out[0].net + SumNets(out[1..])
  }

  function NetTags(out: seq<MonthTotals>): (r: seq<seq<string>>)
    ensures |r| == |out| && forall i :: 0 <= i < |r| ==> r[i] == [out[i].month]
  {
    seq(|out|, i requires 0 <= i < |out| => [out[i].month])
  }

  lemma {:induction false} NetsAreFlows(rows: seq<Tx>, out: seq<MonthTotals>)
    requires forall i :: 0 <= i < |out| ==> out[i] == MonthEntry(rows, out[i].month)
    ensures SumNets(out) ==
            SumFlows(Income, rows, ByMonth, NetTags(out)) - SumFlows(Expense, rows, ByMonth, NetTags(out))
    decreases out
  {
    if out != [] {
      NetsAreFlows(rows, out[1..]);
      assert NetTags(out)[1..] == NetTags(out[1..]);
    }
  }

  lemma NetTagsHold(rows: seq<Tx>, out: seq<MonthTotals>)
    requires multiset(out) == multiset(MonthSet(rows))
    ensures forall i :: 0 <= i < |out| ==> out[i] == MonthEntry(rows, out[i].month)
    ensures DistinctTags(NetTags(out))
    ensures forall t :: t in rows ==> [Month(t)] in NetTags(out)
  {
    forall i | 0 <= i < |out| ensures out[i] == MonthEntry(rows, out[i].month) {
      assert out[i] in multiset(out);
      assert out[i] in MonthSet(rows);
    }
    forall i, j | 0 <= i < j < |out| ensures NetTags(out)[i] != NetTags(out)[j] {
      if out[i].month == out[j].month {
        Twice(out, i, j);
        assert false;
      }
      assert [out[i].month][0] != [out[j].month][0];
    }
    forall t | t in rows ensures [Month(t)] in NetTags(out) {
      assert MonthEntry(rows, Month(t)) in MonthSet(rows);
      assert MonthEntry(rows, Month(t)) in multiset(out);
      var i :| 0 <= i < |out| && out[i] == MonthEntry(rows, Month(t));
      assert NetTags(out)[i] == [Month(t)];
    }
  }

  // The monthly nets add up to the sum of all amounts: nothing is lost or counted twice.
  lemma NetsAddUpToAmounts(rows: seq<Tx>, out: seq<MonthTotals>)
    requires multiset(out) == multiset(MonthSet(rows))
    ensures SumNets(out) == SumAmounts(rows)
  {
    NetTagsHold(rows, out);
    GroupsAddUp(Income, rows, ByMonth, NetTags(out), Whole, []);
    GroupsAddUp(Expense, rows, ByMonth, NetTags(out), Whole, []);
    NetsAreFlows(rows, out);
    AmountsAreIncomeMinusExpense(rows);
  }

  /******* Budgets *******/

  // The expense of the entry for this pair, if there is one.
  function ExpenseAt(out: seq<CategoryMonth>, month: string, category: string): real
    decreases out
  {
    if out == [] then 0.0
    else if out[0].month == month && out[0].category == category then out[0].expense
    else ExpenseAt(out[1..], month, category)
  }

  lemma {:induction false} ExpenseAtIsFlow(rows: seq<Tx>, all: seq<CategoryMonth>, out: seq<CategoryMonth>,
                                           month: string, category: string)
    requires forall i :: 0 <= i < |out| ==> out[i] == EntryOf(rows, out[i].month, out[i].category)
    requires (forall t :: t in rows && Month(t) == month && t.category == category ==>
               exists i :: 0 <= i < |out| && out[i].month == month && out[i].category == category)
    ensures ExpenseAt(out, month, category) == Flow(Expense, rows, ByPair, [month, category])
    decreases out
  {
    if out == [] {
      EmptyGroup(Expense, rows, ByPair, [month, category]);
    } else if !(out[0].month == month && out[0].category == category) {
      forall t | t in rows && Month(t) == month && t.category == category
        ensures exists i :: 0 <= i < |out[1..]| && out[1..][i].month == month && out[1..][i].category == category
      {
        var i :| 0 <= i < |out| && out[i].month == month && out[i].category == category;
        assert out[1..][i - 1] == out[i];
      }
      ExpenseAtIsFlow(rows, all, out[1..], month, category);
    }
  }

  // A budget line's actual is the expense grouped under its category; the line for the
  // uncategorized name also takes the rows without a category, whose own name gets none.
  lemma BudgetAgreesWithGroups(rows: seq<Tx>, out: seq<CategoryMonth>, month: string, b: BudgetLine)
    requires multiset(out) == multiset(EntrySet(rows))
    ensures StatusOf(rows, month, b).actual ==
            if b.category == "" then 0.0
            else if b.category == UNCATEGORIZED then ExpenseAt(out, month, UNCATEGORIZED) + ExpenseAt(out, month, "")
            else ExpenseAt(out, month, b.category)
  {
    OutIsEntries(rows, out);
    forall t | t in rows
      ensures exists i :: 0 <= i < |out| && out[i].month == Month(t) && out[i].category == t.category
    {
      assert EntryOf(rows, Month(t), t.category) in EntrySet(rows);
      var i :| 0 <= i < |out| && out[i] == EntryOf(rows, Month(t), t.category);
      assert out[i].month == Month(t);
    }
    if b.category == "" {
      EmptyGroup(Expense, rows, SpentIn(month), [""]);
    } else if b.category == UNCATEGORIZED {
      var named, unnamed := [month, UNCATEGORIZED], [month, ""];
      assert named[1] != unnamed[1];
      ExpenseAtIsFlow(rows, out, out, month, UNCATEGORIZED);
      ExpenseAtIsFlow(rows, out, out, month, "");
      GroupsAddUp(Expense, rows, ByPair, [named, unnamed], SpentIn(month), [UNCATEGORIZED]);
      TwoTags(Expense, rows, ByPair, named, unnamed);
    } else {
      ExpenseAtIsFlow(rows, out, out, month, b.category);
      SameGroup(Expense, rows, ByPair, [month, b.category], SpentIn(month), [b.category]);
    }
  }

  lemma TwoTags(side: Side, rows: seq<Tx>, g: Grouping, a: seq<string>, b: seq<string>)
    ensures SumFlows(side, rows, g, [a, b]) == Flow(side, rows, g, a) + Flow(side, rows, g, b)
  {
    assert [a, b][1..] == [b] && [b][1..] == [];
    assert SumFlows(side, rows, g, []) == 0.0;
    assert SumFlows(side, rows, g, [b]) == Flow(side, rows, g, b);
  }
}
