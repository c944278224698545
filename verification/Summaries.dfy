/**
 The summary folds over decrypted transactions, with exact amounts, and their
 conservation laws.
 */
module Summaries {
  import opened Sorting

  // The fields the summaries read; `date` is an ISO yyyy-mm-dd string.
  datatype Tx = Tx(amount: real, date: string, category: string)

  function Month(t: Tx): string {
    if |t.date| < 7 then t.date else t.date[..7]
  }

  predicate IsoDates(rows: seq<Tx>) {
    forall t :: t in rows ==> |t.date| == 10
  }

  /******* What a group of rows adds up to *******/

  datatype Side = Expense | Income

  function Part(side: Side, t: Tx): (r: real)
    ensures r >= 0.0
  {
    match side
    case Expense => if t.amount < 0.0 then -t.amount else 0.0
    case Income => if t.amount < 0.0 then 0.0 else t.amount
  }

  // Ways to group rows; the tag of a row says which group it is in.
  datatype Grouping = ByKey | ByPair | ByMonth | Whole | SpentIn(month: string)

  const UNCATEGORIZED := "(uncategorized)"

  function MapKey(t: Tx): string {
    Month(t) + "|" + t.category
  }

  function BudgetCategory(t: Tx): string {
    if t.category == "" then UNCATEGORIZED else t.category
  }

  function TagOf(g: Grouping, t: Tx): seq<string> {
    match g
    case ByKey => [MapKey(t)]
    case ByPair => [Month(t), t.category]
    case ByMonth => [Month(t)]
    case Whole => []
    case SpentIn(month) => if Month(t) == month then [BudgetCategory(t)] else []
  }

  function Flow(side: Side, rows: seq<Tx>, g: Grouping, tag: seq<string>): real {
    if rows == [] then 0.0
    else
      var last := rows[|rows| - 1];
      Flow(side, rows[..|rows| - 1], g, tag) + (if TagOf(g, last) == tag then Part(side, last) else 0.0)
  }

  lemma FlowStep(side: Side, rows: seq<Tx>, i: nat, g: Grouping, tag: seq<string>)
    requires i < |rows|
    ensures Flow(side, rows[..i + 1], g, tag) ==
            Flow(side, rows[..i], g, tag) + (if TagOf(g, rows[i]) == tag then Part(side, rows[i]) else 0.0)
  {
    assert rows[..i + 1][..i] == rows[..i];
  }

  lemma {:induction false} EmptyGroup(side: Side, rows: seq<Tx>, g: Grouping, tag: seq<string>)
    requires forall t :: t in rows ==> TagOf(g, t) != tag
    ensures Flow(side, rows, g, tag) == 0.0
  {
    if rows != [] {
      assert forall t :: t in rows[..|rows| - 1] ==> t in rows;
      EmptyGroup(side, rows[..|rows| - 1], g, tag);
    }
  }

  lemma {:induction false} SameGroup(side: Side, rows: seq<Tx>, g: Grouping, tag: seq<string>,
                                     g': Grouping, tag': seq<string>)
    requires forall i :: 0 <= i < |rows| ==> (TagOf(g, rows[i]) == tag <==> TagOf(g', rows[i]) == tag')
    ensures Flow(side, rows, g, tag) == Flow(side, rows, g', tag')
  {
    if rows != [] {
      SameGroup(side, rows[..|rows| - 1], g, tag, g', tag');
    }
  }

  /******* Finer groups add up to coarser ones *******/

  function SumFlows(side: Side, rows: seq<Tx>, g: Grouping, tags: seq<seq<string>>): real
    decreases tags
  {
    if tags == [] then 0.0 else Flow(side, rows, g, tags[0]) + SumFlows(side, rows, g, tags[1..])
  }

  predicate DistinctTags(tags: seq<seq<string>>) {
    forall i, j :: 0 <= i < j < |tags| ==> tags[i] != tags[j]
  }

  lemma {:induction false} SumFlowsStep(side: Side, rows: seq<Tx>, g: Grouping, tags: seq<seq<string>>)
    requires rows != [] && DistinctTags(tags)
    ensures var last := rows[|rows| - 1];
      SumFlows(side, rows, g, tags) == SumFlows(side, rows[..|rows| - 1], g, tags) +
        (if TagOf(g, last) in tags then Part(side, last) else 0.0)
    decreases tags
  {
    if tags != [] {
      SumFlowsStep(side, rows, g, tags[1..]);
    }
  }

  lemma {:induction false} SumFlowsNothing(side: Side, g: Grouping, tags: seq<seq<string>>)
    ensures SumFlows(side, [], g, tags) == 0.0
    decreases tags
  {
    if tags != [] {
      SumFlowsNothing(side, g, tags[1..]);
    }
  }

  // When the fine tags listed are those of exactly the rows of one coarse group, the
  // fine groups add up to it.
  lemma {:induction false} GroupsAddUp(side: Side, rows: seq<Tx>, fine: Grouping, tags: seq<seq<string>>,
                                       coarse: Grouping, tag: seq<string>)
    requires DistinctTags(tags)
    requires forall t :: t in rows ==> (TagOf(fine, t) in tags <==> TagOf(coarse, t) == tag)
    ensures SumFlows(side, rows, fine, tags) == Flow(side, rows, coarse, tag)
  {
    if rows == [] {
      SumFlowsNothing(side, fine, tags);
    } else {
      assert forall t :: t in rows[..|rows| - 1] ==> t in rows;
      GroupsAddUp(side, rows[..|rows| - 1], fine, tags, coarse, tag);
      SumFlowsStep(side, rows, fine, tags);
    }
  }

  function SumAmounts(rows: seq<Tx>): real {
    if rows == [] then 0.0 else SumAmounts(rows[..|rows| - 1]) + rows[|rows| - 1].amount
  }

  lemma {:induction false} AmountsAreIncomeMinusExpense(rows: seq<Tx>)
    ensures SumAmounts(rows) == Flow(Income, rows, Whole, []) - Flow(Expense, rows, Whole, [])
  {
    if rows != [] {
      AmountsAreIncomeMinusExpense(rows[..|rows| - 1]);
    }
  }

  /******* Row order *******/

  lemma {:induction false} FlowAppend(side: Side, a: seq<Tx>, b: seq<Tx>, g: Grouping, tag: seq<string>)
    ensures Flow(side, a + b, g, tag) == Flow(side, a, g, tag) + Flow(side, b, g, tag)
  {
    if b == [] {
      assert a + b == a;
    } else {
      assert (a + b)[..|a + b| - 1] == a + b[..|b| - 1];
      FlowAppend(side, a, b[..|b| - 1], g, tag);
    }
  }

  // Where the last row of one order stands in another.
  lemma FindLast<T>(s: seq<T>, shuffled: seq<T>) returns (j: nat)
    requires multiset(s) == multiset(shuffled) && s != []
    ensures j < |shuffled| && shuffled[j] == s[|s| - 1]
    ensures shuffled == shuffled[..j] + [shuffled[j]] + shuffled[j + 1..]
    ensures multiset(s[..|s| - 1]) == multiset(shuffled[..j] + shuffled[j + 1..])
  {
    var init, last := s[..|s| - 1], s[|s| - 1];
    assert s == init + [last];
    assert last in multiset(shuffled);
    j :| 0 <= j < |shuffled| && shuffled[j] == last;
    var rest := shuffled[..j] + shuffled[j + 1..];
    assert shuffled == shuffled[..j] + [last] + shuffled[j + 1..];
    assert multiset(init) == multiset(s) - multiset{last};
    assert multiset(rest) == multiset(shuffled) - multiset{last};
  }

  lemma FlowOfThree(side: Side, a: seq<Tx>, t: Tx, b: seq<Tx>, g: Grouping, tag: seq<string>)
    ensures Flow(side, a + [t] + b, g, tag) ==
            Flow(side, a + b, g, tag) + (if TagOf(g, t) == tag then Part(side, t) else 0.0)
  {
    FlowAppend(side, a, b, g, tag);
    FlowAppend(side, a, [t], g, tag);
    FlowAppend(side, a + [t], b, g, tag);
    assert [t][..0] == [];
  }

  lemma {:induction false} FlowIgnoresOrder(side: Side, rows: seq<Tx>, shuffled: seq<Tx>, g: Grouping, tag: seq<string>)
    requires multiset(rows) == multiset(shuffled)
    ensures Flow(side, rows, g, tag) == Flow(side, shuffled, g, tag)
    decreases rows
  {
    if rows == [] {
      assert |multiset(shuffled)| == 0;
    } else {
      var j := FindLast(rows, shuffled);
      FlowIgnoresOrder(side, rows[..|rows| - 1], shuffled[..j] + shuffled[j + 1..], g, tag);
      FlowOfThree(side, shuffled[..j], shuffled[j], shuffled[j + 1..], g, tag);
    }
  }

  // localeCompare(a, b) <= 0.  Canonically equivalent strings compare as equal, so two
  // different strings can tie.
  type Collation = (string, string) -> bool

  predicate Tied(le: Collation, a: string, b: string) { le(a, b) && le(b, a) }

  // Two months that occur tie only when they are the same.
  predicate MonthsApart(le: Collation, rows: seq<Tx>) {
    forall t, u :: t in rows && u in rows && Tied(le, Month(t), Month(u)) ==> Month(t) == Month(u)
  }

  /******* Keys in order of appearance *******/

  predicate HasKey(key: Tx -> string, rows: seq<Tx>, k: string) {
    exists t :: t in rows && key(t) == k
  }

  // The keys of a Map filled from the rows, in insertion order.
  function FirstSeen(key: Tx -> string, rows: seq<Tx>): seq<string> {
    if rows == [] then []
    else
      var init, last := rows[..|rows| - 1], rows[|rows| - 1];
      if HasKey(key, init, key(last)) then FirstSeen(key, init) else FirstSeen(key, init) + [key(last)]
  }

  lemma {:induction false} FirstSeenHolds(key: Tx -> string, rows: seq<Tx>)
    ensures NoDuplicates(FirstSeen(key, rows))
    ensures forall k :: k in FirstSeen(key, rows) <==> HasKey(key, rows, k)
  {
    if rows != [] {
      var init, last := rows[..|rows| - 1], rows[|rows| - 1];
      FirstSeenHolds(key, init);
      assert rows == init + [last];
      assert forall k :: HasKey(key, rows, k) <==> HasKey(key, init, k) || key(last) == k;
    }
  }

  // [...map.values()].
  function InOrder<V>(entries: map<string, V>, order: seq<string>): (r: seq<V>)
    requires forall k :: k in order ==> k in entries
    ensures |r| == |order| && forall i :: 0 <= i < |r| ==> r[i] == entries[order[i]]
  {
    seq(|order|, i requires 0 <= i < |order| => entries[order[i]])
  }

  lemma FirstSeenStep(key: Tx -> string, rows: seq<Tx>, i: nat)
    requires i < |rows|
    ensures FirstSeen(key, rows[..i + 1]) ==
      if HasKey(key, rows[..i], key(rows[i])) then FirstSeen(key, rows[..i])
      else FirstSeen(key, rows[..i]) + [key(rows[i])]
  {
    assert rows[..i + 1][..i] == rows[..i];
  }

  lemma FirstSeenOfTwo(key: Tx -> string, t: Tx, u: Tx)
    ensures FirstSeen(key, [t, u]) == if key(t) == key(u) then [key(t)] else [key(t), key(u)]
  {
    assert [t, u][..1] == [t] && [t][..0] == [];
    assert FirstSeen(key, []) == [];
    assert FirstSeen(key, [t]) == [key(t)];
  }

  lemma {:induction false} FirstRowIsFirstSeen(key: Tx -> string, t: Tx, rest: seq<Tx>)
    ensures FirstSeen(key, [t] + rest) != [] && FirstSeen(key, [t] + rest)[0] == key(t)
  {
    var rows := [t] + rest;
    if rest == [] {
      assert rows[..|rows| - 1] == [];
    } else {
      assert rows[..|rows| - 1] == [t] + rest[..|rest| - 1];
      FirstRowIsFirstSeen(key, t, rest[..|rest| - 1]);
    }
  }

  /******* byCategoryMonth *******/

  datatype CategoryMonth = CategoryMonth(month: string, category: string, expense: real, income: real)

  predicate EntryLe(le: Collation, a: CategoryMonth, b: CategoryMonth) {
    if a.month == b.month then le(a.category, b.category) else le(a.month, b.month)
  }

  function EntryOrder(le: Collation): (CategoryMonth, CategoryMonth) -> bool {
    (a: CategoryMonth, b: CategoryMonth) => EntryLe(le, a, b)
  }

  // A preorder on entries whose months tie only when equal.
  lemma EntryOrderIsPreorder(le: Collation, rows: seq<Tx>, entries: set<CategoryMonth>)
    requires TotalPreorder(le) && MonthsApart(le, rows)
    requires forall e :: e in entries ==> exists t :: t in rows && Month(t) == e.month
    ensures PreorderOn(EntryOrder(le), entries)
  {
    forall a, b | a in entries && b in entries && Tied(le, a.month, b.month) ensures a.month == b.month {
      var t :| t in rows && Month(t) == a.month;
      var u :| u in rows && Month(u) == b.month;
      assert Tied(le, Month(t), Month(u));
    }
  }

  function EntryKey(e: CategoryMonth): string { e.month + "|" + e.category }

  // The entry of one (month, category) pair.
  function EntryOf(rows: seq<Tx>, month: string, category: string): CategoryMonth {
    CategoryMonth(month, category, Flow(Expense, rows, ByPair, [month, category]), Flow(Income, rows, ByPair, [month, category]))
  }

  // One entry per distinct (month, category) of the rows.
  function EntrySet(rows: seq<Tx>): set<CategoryMonth> {
    set t | t in rows :: EntryOf(rows, Month(t), t.category)
  }

  // The first row of a key; its entry is named after it.
  function Leader(rows: seq<Tx>, k: string): (t: Tx)
    requires HasKey(MapKey, rows, k)
    ensures t in rows && MapKey(t) == k
  {
    var init, last := rows[..|rows| - 1], rows[|rows| - 1];
    assert rows == init + [last];
    if HasKey(MapKey, init, k) then Leader(init, k) else last
  }

  lemma {:induction false} FirstRowLeads(t: Tx, rest: seq<Tx>)
    ensures HasKey(MapKey, [t] + rest, MapKey(t)) && Leader([t] + rest, MapKey(t)) == t
  {
    var rows := [t] + rest;
    assert rows[0] == t;
    if rest == [] {
      assert rows[..|rows| - 1] == [];
    } else {
      assert rows[..|rows| - 1] == [t] + rest[..|rest| - 1];
      FirstRowLeads(t, rest[..|rest| - 1]);
    }
  }

  // What the map holds under a key: the pair of its first row, and all its rows' amounts.
  function KeyEntry(rows: seq<Tx>, k: string): (e: CategoryMonth)
    requires HasKey(MapKey, rows, k)
    ensures EntryKey(e) == k
  {
    var t := Leader(rows, k);
    CategoryMonth(Month(t), t.category, Flow(Expense, rows, ByKey, [k]), Flow(Income, rows, ByKey, [k]))
  }

  // The map's values in insertion order.
  function Values(rows: seq<Tx>): (r: seq<CategoryMonth>)
    ensures |r| == |FirstSeen(MapKey, rows)|
    ensures forall i :: 0 <= i < |r| ==>
      HasKey(MapKey, rows, FirstSeen(MapKey, rows)[i]) && r[i] == KeyEntry(rows, FirstSeen(MapKey, rows)[i])
  {
    FirstSeenHolds(MapKey, rows);
    var keys := FirstSeen(MapKey, rows);
    seq(|keys|, i requires 0 <= i < |keys| => KeyEntry(rows, keys[i]))
  }

  function CategoryMonths(le: Collation, rows: seq<Tx>): seq<CategoryMonth> {
    Sort(EntryOrder(le), Values(rows))
  }

  ghost predicate Grouped(rows: seq<Tx>, entries: map<string, CategoryMonth>) {
    forall k :: (k in entries <==> HasKey(MapKey, rows, k)) && (k in entries ==> entries[k] == KeyEntry(rows, k))
  }

  // Adding one row to its own entry.
  function Plus(e: CategoryMonth, t: Tx): CategoryMonth {
    e.(expense := e.expense + Part(Expense, t), income := e.income + Part(Income, t))
  }

  lemma KeyEntryStep(rows: seq<Tx>, i: nat, k: string)
    requires i < |rows|
    ensures HasKey(MapKey, rows[..i + 1], k) <==> HasKey(MapKey, rows[..i], k) || MapKey(rows[i]) == k
    ensures HasKey(MapKey, rows[..i], k) ==>
      KeyEntry(rows[..i + 1], k) == if MapKey(rows[i]) == k then Plus(KeyEntry(rows[..i], k), rows[i])
                                    else KeyEntry(rows[..i], k)
    ensures !HasKey(MapKey, rows[..i], k) && MapKey(rows[i]) == k ==>
      KeyEntry(rows[..i + 1], k) == Plus(CategoryMonth(Month(rows[i]), rows[i].category, 0.0, 0.0), rows[i])
  {
    assert rows[..i + 1] == rows[..i] + [rows[i]] && rows[..i + 1][..i] == rows[..i];
    FlowStep(Expense, rows, i, ByKey, [k]);
    FlowStep(Income, rows, i, ByKey, [k]);
    if !HasKey(MapKey, rows[..i], k) {
      EmptyGroup(Expense, rows[..i], ByKey, [k]);
      EmptyGroup(Income, rows[..i], ByKey, [k]);
    }
  }

  lemma GroupedStep(rows: seq<Tx>, i: nat, entries: map<string, CategoryMonth>, next: map<string, CategoryMonth>)
    requires i < |rows| && Grouped(rows[..i], entries)
    requires var key := MapKey(rows[i]);
      next == entries[key := Plus(if key in entries then entries[key]
                                  else CategoryMonth(Month(rows[i]), rows[i].category, 0.0, 0.0), rows[i])]
    ensures Grouped(rows[..i + 1], next)
  {
    forall k
      ensures k in next <==> HasKey(MapKey, rows[..i + 1], k)
      ensures k in next ==> next[k] == KeyEntry(rows[..i + 1], k)
    {
      KeyEntryStep(rows, i, k);
    }
  }

  /******* When the map groups by (month, category) *******/

  // Rows under one key belong to one (month, category) pair.
  predicate KeysFaithful(rows: seq<Tx>) {
    forall t, u :: t in rows && u in rows && MapKey(t) == MapKey(u) ==> Month(t) == Month(u) && t.category == u.category
  }

  // With months of seven characters the string key names one (month, category) pair.
  lemma KeysNamePairs(t: Tx, u: Tx)
    requires |t.date| == 10 && |u.date| == 10
    ensures MapKey(t) == MapKey(u) <==> Month(t) == Month(u) && t.category == u.category
  {
    assert MapKey(t)[..7] == Month(t) && MapKey(t)[8..] == t.category;
    assert MapKey(u)[..7] == Month(u) && MapKey(u)[8..] == u.category;
  }

  lemma IsoDatesAreFaithful(rows: seq<Tx>)
    requires IsoDates(rows)
    ensures KeysFaithful(rows)
  {
    forall t, u | t in rows && u in rows && MapKey(t) == MapKey(u)
      ensures Month(t) == Month(u) && t.category == u.category
    {
      KeysNamePairs(t, u);
    }
  }

  lemma KeyEntryIsPairEntry(rows: seq<Tx>, t: Tx)
    requires KeysFaithful(rows) && t in rows
    ensures HasKey(MapKey, rows, MapKey(t)) && KeyEntry(rows, MapKey(t)) == EntryOf(rows, Month(t), t.category)
  {
    var k := MapKey(t);
    assert HasKey(MapKey, rows, k);
    forall u | u in rows ensures TagOf(ByKey, u) == [k] <==> TagOf(ByPair, u) == [Month(t), t.category] {
      assert MapKey(u) == k <==> Month(u) == Month(t) && u.category == t.category;
    }
    SameGroup(Expense, rows, ByKey, [k], ByPair, [Month(t), t.category]);
    SameGroup(Income, rows, ByKey, [k], ByPair, [Month(t), t.category]);
  }

  lemma ValuesAreDistinct(rows: seq<Tx>)
    ensures NoDuplicates(Values(rows))
  {
    FirstSeenHolds(MapKey, rows);
    forall i, j | 0 <= i < j < |Values(rows)| ensures Values(rows)[i] != Values(rows)[j] {
      assert EntryKey(Values(rows)[i]) != EntryKey(Values(rows)[j]);
    }
  }

  lemma ValuesOfFaithfulKeys(rows: seq<Tx>)
    requires KeysFaithful(rows)
    ensures multiset(Values(rows)) == multiset(EntrySet(rows))
  {
    var keys, values := FirstSeen(MapKey, rows), Values(rows);
    FirstSeenHolds(MapKey, rows);
    forall e ensures e in values <==> e in EntrySet(rows) {
      if e in values {
        var i :| 0 <= i < |values| && values[i] == e;
        KeyEntryIsPairEntry(rows, Leader(rows, keys[i]));
      }
      if e in EntrySet(rows) {
        var t :| t in rows && e == EntryOf(rows, Month(t), t.category);
        KeyEntryIsPairEntry(rows, t);
        var i :| 0 <= i < |keys| && keys[i] == MapKey(t);
        assert values[i] == e;
      }
    }
    assert EntrySet(rows) == set e | e in values;
    ValuesAreDistinct(rows);
    DistinctMultiset(values);
  }

  // The values are the entries of the (month, category) pairs, once each, exactly when
  // no two pairs share a key.
  lemma GroupsByPairIff(rows: seq<Tx>)
    ensures multiset(Values(rows)) == multiset(EntrySet(rows)) <==> KeysFaithful(rows)
  {
    if KeysFaithful(rows) {
      ValuesOfFaithfulKeys(rows);
    }
    if multiset(Values(rows)) == multiset(EntrySet(rows)) {
      PairsKeepTheirKeys(rows);
    }
  }

  lemma PairsKeepTheirKeys(rows: seq<Tx>)
    requires multiset(Values(rows)) == multiset(EntrySet(rows))
    ensures KeysFaithful(rows)
  {
    FirstSeenHolds(MapKey, rows);
    forall t, u | t in rows && u in rows && MapKey(t) == MapKey(u)
      ensures Month(t) == Month(u) && t.category == u.category
    {
      var d, e := EntryOf(rows, Month(t), t.category), EntryOf(rows, Month(u), u.category);
      assert d in multiset(EntrySet(rows)) && e in multiset(EntrySet(rows));
      var i :| 0 <= i < |Values(rows)| && Values(rows)[i] == d;
      var j :| 0 <= j < |Values(rows)| && Values(rows)[j] == e;
      assert FirstSeen(MapKey, rows)[i] == EntryKey(d) == EntryKey(e) == FirstSeen(MapKey, rows)[j];
      assert i == j;
    }
  }

  // The loop body's update of one entry.
  method AddTo(e: CategoryMonth, r: Tx) returns (entry: CategoryMonth)
    ensures entry == Plus(e, r)
  {
    if r.amount < 0.0 {
      entry := e.(expense := e.expense + -r.amount);
    } else {
      entry := e.(income := e.income + r.amount);
    }
  }

  // The loop body: the row's entry, made when its key is new, takes the amount.
  method AddRow(entries: map<string, CategoryMonth>, order: seq<string>, r: Tx)
    returns (entries': map<string, CategoryMonth>, order': seq<string>)
    ensures entries' == entries[MapKey(r) := Plus(if MapKey(r) in entries then entries[MapKey(r)]
                                                  else CategoryMonth(Month(r), r.category, 0.0, 0.0), r)]
    ensures order' == if MapKey(r) in entries then order else order + [MapKey(r)]
  {
    entries', order' := entries, order;
    var key := Month(r) + "|" + r.category;
    if key !in entries' {
      entries' := entries'[key := CategoryMonth(Month(r), r.category, 0.0, 0.0)];
      order' := order' + [key];
    }
    var entry := AddTo(entries'[key], r);
    entries' := entries'[key := entry];
  }

  // The loop, and the map's values in insertion order.
  method GroupRows(rows: seq<Tx>) returns (values: seq<CategoryMonth>)
    ensures values == Values(rows)
  {
    var entries: map<string, CategoryMonth> := map[];
    var order: seq<string> := [];
    for i := 0 to |rows|
      invariant Grouped(rows[..i], entries)
      invariant order == FirstSeen(MapKey, rows[..i])
    {
      ghost var before := entries;
      FirstSeenStep(MapKey, rows, i);
      entries, order := AddRow(entries, order, rows[i]);
      GroupedStep(rows, i, before, entries);
    }
    assert rows[..|rows|] == rows;
    GroupedValues(rows, entries);
    values := InOrder(entries, order);
  }

  lemma GroupedValues(rows: seq<Tx>, entries: map<string, CategoryMonth>)
    requires Grouped(rows, entries)
    ensures forall k :: k in FirstSeen(MapKey, rows) ==> k in entries
    ensures InOrder(entries, FirstSeen(MapKey, rows)) == Values(rows)
  {
    FirstSeenHolds(MapKey, rows);
  }

  // Each (month, category) pair has one entry with that pair's sums exactly when no two
  // pairs share a key; ISO dates are enough for that.
  method ByCategoryMonth(le: Collation, rows: seq<Tx>) returns (out: seq<CategoryMonth>)
    ensures out == CategoryMonths(le, rows)
    ensures multiset(out) == multiset(EntrySet(rows)) <==> KeysFaithful(rows)
    ensures IsoDates(rows) ==> KeysFaithful(rows)
    ensures TotalPreorder(le) && MonthsApart(le, rows) ==> Sorted(EntryOrder(le), out)
  {
    var values := GroupRows(rows);
    out := Sort(EntryOrder(le), values);
    GroupsByPairIff(rows);
    if IsoDates(rows) {
      IsoDatesAreFaithful(rows);
    }
    if TotalPreorder(le) && MonthsApart(le, rows) {
      CategoryMonthsAreSorted(le, rows);
    }
  }

  lemma CategoryMonthsAreSorted(le: Collation, rows: seq<Tx>)
    requires TotalPreorder(le) && MonthsApart(le, rows)
    ensures Sorted(EntryOrder(le), CategoryMonths(le, rows))
  {
    var values := set e | e in Values(rows);
    forall e | e in values ensures exists t :: t in rows && Month(t) == e.month {
      var i :| 0 <= i < |Values(rows)| && Values(rows)[i] == e;
      var t := Leader(rows, FirstSeen(MapKey, rows)[i]);
      assert t in rows && Month(t) == e.month;
    }
    EntryOrderIsPreorder(le, rows, values);
    SortSorts(EntryOrder(le), Values(rows), values);
  }

  // Without ISO dates two pairs can share a key: their rows are merged into one entry,
  // under the pair that came first.
  lemma MalformedDatesMerge(le: Collation) returns (t: Tx, u: Tx)
    ensures |EntrySet([t, u])| == 2
    ensures CategoryMonths(le, [t, u]) == [CategoryMonth("a", "b|c", 5.0, 0.0)]
    ensures CategoryMonths(le, [u, t]) == [CategoryMonth("a|b", "c", 5.0, 0.0)]
  {
    t, u := Tx(-2.0, "a", "b|c"), Tx(-3.0, "a|b", "c");
    CollidingKeys(t, u);
    TwoRowsOneKey(le, t, u);
    TwoRowsOneKey(le, u, t);
    TwoPairs(t, u);
  }

  lemma CollidingKeys(t: Tx, u: Tx)
    requires t.date == "a" && t.category == "b|c" && u.date == "a|b" && u.category == "c"
    ensures MapKey(t) == MapKey(u) && t.category != u.category
  {
    assert MapKey(t) == "a|b|c" == MapKey(u);
    assert |t.category| != |u.category|;
  }

  lemma TwoPairs(t: Tx, u: Tx)
    requires t.category != u.category
    ensures |EntrySet([t, u])| == 2
  {
    var d, e := EntryOf([t, u], Month(t), t.category), EntryOf([t, u], Month(u), u.category);
    assert EntrySet([t, u]) == {d, e} && d != e;
  }

  // Rows that share a key end up in one entry, named after the first of them.
  lemma TwoRowsOneKey(le: Collation, t: Tx, u: Tx)
    requires MapKey(t) == MapKey(u)
    ensures CategoryMonths(le, [t, u]) ==
      [CategoryMonth(Month(t), t.category, Part(Expense, t) + Part(Expense, u), Part(Income, t) + Part(Income, u))]
  {
    var rows, k := [t, u], MapKey(t);
    TwoRowsFlow(Expense, t, u);
    TwoRowsFlow(Income, t, u);
    FirstSeenOfTwo(MapKey, t, u);
    assert rows == [t] + [u];
    FirstRowLeads(t, [u]);
    assert Values(rows) == [KeyEntry(rows, k)];
    assert Sort(EntryOrder(le), []) == [] && [KeyEntry(rows, k)][1..] == [];
  }

  lemma TwoRowsFlow(side: Side, t: Tx, u: Tx)
    requires MapKey(t) == MapKey(u)
    ensures Flow(side, [t, u], ByKey, [MapKey(t)]) == Part(side, t) + Part(side, u)
  {
    var rows, k := [t, u], [MapKey(t)];
    assert rows[..0] == [] && rows[..2] == rows;
    FlowStep(side, rows, 0, ByKey, k);
    FlowStep(side, rows, 1, ByKey, k);
  }

  /******* monthlyTotals *******/

  datatype MonthTotals = MonthTotals(month: string, income: real, expense: real, net: real)

  function MonthEntry(rows: seq<Tx>, month: string): MonthTotals {
    var income, expense := Flow(Income, rows, ByMonth, [month]), Flow(Expense, rows, ByMonth, [month]);
    MonthTotals(month, income, expense, income - expense)
  }

  // One entry per distinct month of the rows.
  function MonthSet(rows: seq<Tx>): set<MonthTotals> {
    set t | t in rows :: MonthEntry(rows, Month(t))
  }

  predicate MonthLe(le: Collation, a: MonthTotals, b: MonthTotals) {
    le(a.month, b.month)
  }

  function MonthOrder(le: Collation): (MonthTotals, MonthTotals) -> bool {
    (a: MonthTotals, b: MonthTotals) => MonthLe(le, a, b)
  }

  // The map's values in insertion order.
  function MonthValues(rows: seq<Tx>): (r: seq<MonthTotals>)
    ensures |r| == |FirstSeen(Month, rows)|
    ensures forall i :: 0 <= i < |r| ==> r[i] == MonthEntry(rows, FirstSeen(Month, rows)[i])
  {
    var months := FirstSeen(Month, rows);
    seq(|months|, i requires 0 <= i < |months| => MonthEntry(rows, months[i]))
  }

  function TotalsByMonth(le: Collation, rows: seq<Tx>): seq<MonthTotals> {
    Sort(MonthOrder(le), MonthValues(rows))
  }

  ghost predicate MonthsGrouped(rows: seq<Tx>, entries: map<string, MonthTotals>) {
    forall m :: (m in entries <==> HasKey(Month, rows, m)) && (m in entries ==> entries[m] == MonthEntry(rows, m))
  }

  function PlusMonth(e: MonthTotals, t: Tx): MonthTotals {
    var income, expense := e.income + Part(Income, t), e.expense + Part(Expense, t);
    MonthTotals(e.month, income, expense, income - expense)
  }

  lemma MonthEntryStep(rows: seq<Tx>, i: nat, m: string)
    requires i < |rows|
    ensures HasKey(Month, rows[..i + 1], m) <==> HasKey(Month, rows[..i], m) || Month(rows[i]) == m
    ensures MonthEntry(rows[..i + 1], m) ==
      if Month(rows[i]) == m then PlusMonth(MonthEntry(rows[..i], m), rows[i]) else MonthEntry(rows[..i], m)
    ensures !HasKey(Month, rows[..i], m) ==> MonthEntry(rows[..i], m) == MonthTotals(m, 0.0, 0.0, 0.0)
  {
    assert rows[..i + 1] == rows[..i] + [rows[i]];
    FlowStep(Expense, rows, i, ByMonth, [m]);
    FlowStep(Income, rows, i, ByMonth, [m]);
    if !HasKey(Month, rows[..i], m) {
      EmptyGroup(Expense, rows[..i], ByMonth, [m]);
      EmptyGroup(Income, rows[..i], ByMonth, [m]);
    }
  }

  lemma MonthsGroupedStep(rows: seq<Tx>, i: nat, entries: map<string, MonthTotals>, next: map<string, MonthTotals>)
    requires i < |rows| && MonthsGrouped(rows[..i], entries)
    requires var m := Month(rows[i]);
      next == entries[m := PlusMonth(if m in entries then entries[m] else MonthTotals(m, 0.0, 0.0, 0.0), rows[i])]
    ensures MonthsGrouped(rows[..i + 1], next)
  {
    forall m
      ensures m in next <==> HasKey(Month, rows[..i + 1], m)
      ensures m in next ==> next[m] == MonthEntry(rows[..i + 1], m)
    {
      MonthEntryStep(rows, i, m);
    }
  }

  lemma MonthValuesAreTheEntries(rows: seq<Tx>)
    ensures multiset(MonthValues(rows)) == multiset(MonthSet(rows))
  {
    var months, values := FirstSeen(Month, rows), MonthValues(rows);
    FirstSeenHolds(Month, rows);
    assert forall i :: 0 <= i < |values| ==> values[i].month == months[i];
    forall e ensures e in values <==> e in MonthSet(rows) {
      if e in MonthSet(rows) {
        var t :| t in rows && e == MonthEntry(rows, Month(t));
        assert HasKey(Month, rows, Month(t));
        var i :| 0 <= i < |months| && months[i] == Month(t);
        assert values[i] == e;
      }
      if e in values {
        var i :| 0 <= i < |values| && values[i] == e;
        assert HasKey(Month, rows, months[i]);
        var t :| t in rows && Month(t) == months[i];
        assert e == MonthEntry(rows, Month(t));
      }
    }
    assert MonthSet(rows) == set e | e in values;
    DistinctMultiset(values);
  }

  // The loop body's update of one entry.
  method AddToMonth(e: MonthTotals, r: Tx) returns (entry: MonthTotals)
    ensures entry == PlusMonth(e, r)
  {
    entry := e;
    if r.amount < 0.0 {
      entry := entry.(expense := entry.expense + -r.amount);
    } else {
      entry := entry.(income := entry.income + r.amount);
    }
    entry := entry.(net := entry.income - entry.expense);
  }

  method GroupMonths(rows: seq<Tx>) returns (values: seq<MonthTotals>)
    ensures values == MonthValues(rows)
  {
    var entries: map<string, MonthTotals> := map[];
    var order: seq<string> := [];
    for i := 0 to |rows|
      invariant MonthsGrouped(rows[..i], entries)
      invariant order == FirstSeen(Month, rows[..i])
    {
      ghost var before := entries;
      var r := rows[i];
      var month := Month(r);
      FirstSeenStep(Month, rows, i);
      if month !in entries {
        entries := entries[month := MonthTotals(month, 0.0, 0.0, 0.0)];
        order := order + [month];
      }
      var entry := AddToMonth(entries[month], r);
      entries := entries[month := entry];
      MonthsGroupedStep(rows, i, before, entries);
    }
    assert rows[..|rows|] == rows;
    FirstSeenHolds(Month, rows);
    values := InOrder(entries, order);
  }

  method MonthlyTotals(le: Collation, rows: seq<Tx>) returns (out: seq<MonthTotals>)
    ensures out == TotalsByMonth(le, rows)
    ensures multiset(out) == multiset(MonthSet(rows))
    ensures TotalPreorder(le) ==> Sorted(MonthOrder(le), out)
  {
    var values := GroupMonths(rows);
    out := Sort(MonthOrder(le), values);
    MonthValuesAreTheEntries(rows);
    if TotalPreorder(le) {
      TotalsAreSorted(le, rows);
    }
  }

  lemma TotalsAreSorted(le: Collation, rows: seq<Tx>)
    requires TotalPreorder(le)
    ensures Sorted(MonthOrder(le), TotalsByMonth(le, rows))
  {
    SortSorts(MonthOrder(le), MonthValues(rows), set e | e in MonthValues(rows));
  }

  /******* budgetStatus *******/

  datatype BudgetLine = BudgetLine(category: string, cap: real)

  datatype BudgetStatus = BudgetStatus(category: string, cap: real, actual: real, ratio: real, over: bool)

  function Ratio(actual: real, cap: real): real {
    if cap > 0.0 then (if actual / cap < 9.99 then actual / cap else 9.99)
    else if actual > 0.0 then 9.99 else 0.0
  }

  function StatusOf(rows: seq<Tx>, month: string, b: BudgetLine): BudgetStatus {
    var actual := Flow(Expense, rows, SpentIn(month), [b.category]);
    BudgetStatus(b.category, b.cap, actual, Ratio(actual, b.cap), actual > b.cap)
  }

  function Statuses(rows: seq<Tx>, month: string, budgets: seq<BudgetLine>): (r: seq<BudgetStatus>)
    ensures |r| == |budgets| && forall i :: 0 <= i < |r| ==> r[i] == StatusOf(rows, month, budgets[i])
  {
    seq(|budgets|, i requires 0 <= i < |budgets| => StatusOf(rows, month, budgets[i]))
  }

  const BY_ACTUAL: (BudgetStatus, BudgetStatus) -> bool := (a: BudgetStatus, b: BudgetStatus) => a.actual >= b.actual

  // What has been spent in the month, per budget category.
  method Spent(rows: seq<Tx>, month: string) returns (spent: map<string, real>)
    ensures forall c :: Flow(Expense, rows, SpentIn(month), [c]) == if c in spent then spent[c] else 0.0
  {
    spent := map[];
    for i := 0 to |rows|
      invariant forall c :: Flow(Expense, rows[..i], SpentIn(month), [c]) == if c in spent then spent[c] else 0.0
    {
      var r := rows[i];
      forall c { FlowStep(Expense, rows, i, SpentIn(month), [c]); }
      if Month(r) == month && r.amount < 0.0 {
        var cat := if r.category == "" then UNCATEGORIZED else r.category;
        spent := spent[cat := (if cat in spent then spent[cat] else 0.0) + -r.amount];
      }
    }
    assert rows[..|rows|] == rows;
  }

  method BudgetRows(rows: seq<Tx>, month: string, budgets: seq<BudgetLine>) returns (lines: seq<BudgetStatus>)
    ensures lines == Statuses(rows, month, budgets)
  {
    var spent := Spent(rows, month);
    lines := [];
    for i := 0 to |budgets|
      invariant |lines| == i
      invariant forall j :: 0 <= j < i ==> lines[j] == StatusOf(rows, month, budgets[j])
    {
      var b := budgets[i];
      var actual := if b.category in spent then spent[b.category] else 0.0;
      assert actual == Flow(Expense, rows, SpentIn(month), [b.category]);
      lines := lines + [BudgetStatus(b.category, b.cap, actual, Ratio(actual, b.cap), actual > b.cap)];
    }
  }

  function BudgetStatuses(rows: seq<Tx>, month: string, budgets: seq<BudgetLine>): seq<BudgetStatus> {
    Sort(BY_ACTUAL, Statuses(rows, month, budgets))
  }

  // Lines with the same spending stay in the order of the budgets (SortIsStable).
  method ComputeBudgetStatus(rows: seq<Tx>, month: string, budgets: seq<BudgetLine>) returns (out: seq<BudgetStatus>)
    ensures out == BudgetStatuses(rows, month, budgets)
    ensures multiset(out) == multiset(Statuses(rows, month, budgets))
    ensures Sorted(BY_ACTUAL, out)
    ensures forall a, b :: Before(Statuses(rows, month, budgets), a, b) && a.actual == b.actual ==> Before(out, a, b)
  {
    var lines := BudgetRows(rows, month, budgets);
    out := Sort(BY_ACTUAL, lines);
    SortSorts(BY_ACTUAL, lines, set b | b in lines);
    forall a, b | Before(lines, a, b) && a.actual == b.actual ensures Before(out, a, b) {
      SortIsStable(BY_ACTUAL, lines, a, b);
    }
  }
}
