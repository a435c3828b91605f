/**
 PlatformBreakdown: clicks per platform from one query and revenue and orders per platform from
 another, merged with a map and a set of seen platforms. The result is their full outer join.
 */
module Platforms {

  datatype ClickRow = ClickRow(platform: string, clicks: int)

  /** Revenue as an exact number, and a count of orders. */
  datatype Amount = Amount(revenue: real, orders: int)

  datatype RevenueRow = RevenueRow(platform: string, amount: Amount)

  datatype Entry = Entry(platform: string, amount: Amount, clicks: int)

  const NOTHING := Amount(0.0, 0)

  function Plus(a: Amount, b: Amount): Amount {
    Amount(a.revenue + b.revenue, a.orders + b.orders)
  }

  lemma PlusSwaps(a: Amount, b: Amount, c: Amount)
    ensures Plus(Plus(a, b), c) == Plus(Plus(a, c), b)
  {
  }

  lemma PlusNothing(a: Amount)
    ensures Plus(a, NOTHING) == a
  {
  }

  /** An amount added to either part of a sum is added to the sum. */
  lemma PlusEither(a: Amount, b: Amount, c: Amount)
    ensures Plus(Plus(a, c), Plus(b, NOTHING)) == Plus(Plus(a, b), c)
    ensures Plus(Plus(a, NOTHING), Plus(b, c)) == Plus(Plus(a, b), c)
  {
  }

  // ---------- what is merged ----------

  /** What the map of revenue rows holds for a platform. */
  function AmountOf(revRows: seq<RevenueRow>, platform: string): Amount {
    if revRows == [] then NOTHING
    else if revRows[|revRows| - 1].platform == platform then revRows[|revRows| - 1].amount
    else AmountOf(revRows[..|revRows| - 1], platform)
  }

  predicate Clicked(rows: seq<ClickRow>, platform: string) {
    exists i :: 0 <= i < |rows| && rows[i].platform == platform
  }

  predicate Earned(revRows: seq<RevenueRow>, platform: string) {
    exists i :: 0 <= i < |revRows| && revRows[i].platform == platform
  }

  function WithClicks(rows: seq<ClickRow>, revRows: seq<RevenueRow>): (r: seq<Entry>)
    ensures |r| == |rows|
    ensures forall i :: 0 <= i < |rows| ==> r[i] == Entry(rows[i].platform, AmountOf(revRows, rows[i].platform), rows[i].clicks)
  {
    if rows == [] then []
    else
      var last := rows[|rows| - 1];
      WithClicks(rows[..|rows| - 1], revRows) + [Entry(last.platform, AmountOf(revRows, last.platform), last.clicks)]
  }

  function WithoutClicks(rows: seq<ClickRow>, revRows: seq<RevenueRow>): seq<Entry> {
    if revRows == [] then []
    else
      var last := revRows[|revRows| - 1];
      WithoutClicks(rows, revRows[..|revRows| - 1])
      + if Clicked(rows, last.platform) then [] else [Entry(last.platform, last.amount, 0)]
  }

  function Merged(rows: seq<ClickRow>, revRows: seq<RevenueRow>): seq<Entry> {
    WithClicks(rows, revRows) + WithoutClicks(rows, revRows)
  }

  ghost predicate IsMap(revMap: map<string, Amount>, revRows: seq<RevenueRow>) {
    forall p :: (p in revMap <==> Earned(revRows, p)) && AmountOf(revRows, p) == if p in revMap then revMap[p] else NOTHING
  }

  lemma MapGrows(revMap: map<string, Amount>, revRows: seq<RevenueRow>, n: nat)
    requires n < |revRows| && IsMap(revMap, revRows[..n])
    ensures IsMap(revMap[revRows[n].platform := revRows[n].amount], revRows[..n + 1])
  {
    var before, after, r := revRows[..n], revRows[..n + 1], revRows[n];
    assert after[..n] == before;
    forall p ensures Earned(after, p) <==> Earned(before, p) || p == r.platform {
      assert after[n] == r;
      if Earned(before, p) {
        var i :| 0 <= i < n && before[i].platform == p;
        assert after[i].platform == p;
      }
    }
  }

  lemma ClickedGrows(rows: seq<ClickRow>, n: nat)
    requires n < |rows|
    ensures forall p :: Clicked(rows[..n + 1], p) <==> Clicked(rows[..n], p) || p == rows[n].platform
  {
    forall p ensures Clicked(rows[..n + 1], p) <==> Clicked(rows[..n], p) || p == rows[n].platform {
      assert rows[..n + 1][n] == rows[n];
      if Clicked(rows[..n], p) {
        var i :| 0 <= i < n && rows[..n][i].platform == p;
        assert rows[..n + 1][i].platform == p;
      }
    }
  }

  /** The merging loops of PlatformBreakdown. */
  method PlatformBreakdown(rows: seq<ClickRow>, revRows: seq<RevenueRow>) returns (platforms: seq<Entry>)
    ensures platforms == Merged(rows, revRows)
  {
    hide Clicked, Earned;
    var revMap := BuildMap(revRows);
    var seenPlatforms: set<string> := {};
    platforms := [];
    NothingYet(rows);
    for i := 0 to |rows|
      invariant platforms == WithClicks(rows[..i], revRows)
      invariant forall p :: p in seenPlatforms <==> Clicked(rows[..i], p)
    {
      var row := rows[i];
      ClickedGrows(rows, i);
      assert rows[..i + 1][..i] == rows[..i];
      var entry := Entry(row.platform, NOTHING, row.clicks);
      if row.platform in revMap {
        entry := entry.(amount := revMap[row.platform]);
      }
      platforms := platforms + [entry];
      seenPlatforms := seenPlatforms + {row.platform};
    }
    assert rows[..|rows|] == rows && revRows[..0] == [] && revRows[..|revRows|] == revRows;
    ghost var clicked := platforms;
    assert clicked + [] == clicked;
    for i := 0 to |revRows|
      invariant platforms == clicked + WithoutClicks(rows, revRows[..i])
    {
      assert revRows[..i + 1][..i] == revRows[..i];
      if revRows[i].platform !in seenPlatforms {
        platforms := platforms + [Entry(revRows[i].platform, revRows[i].amount, 0)];
      }
    }
  }

  lemma NothingYet(rows: seq<ClickRow>)
    ensures rows[..0] == [] && forall p :: !Clicked(rows[..0], p)
  {
  }

  method BuildMap(revRows: seq<RevenueRow>) returns (revMap: map<string, Amount>)
    ensures IsMap(revMap, revRows)
  {
    hide IsMap;
    revMap := map[];
    EmptyMap(revRows);
    for i := 0 to |revRows|
      invariant IsMap(revMap, revRows[..i])
    {
      MapGrows(revMap, revRows, i);
      revMap := revMap[revRows[i].platform := revRows[i].amount];
    }
    assert revRows[..|revRows|] == revRows;
  }

  lemma EmptyMap(revRows: seq<RevenueRow>)
    ensures IsMap(map[], revRows[..0])
  {
  }

  // ---------- a full outer join ----------

  predicate DistinctClicks(rows: seq<ClickRow>) {
    forall i, j :: 0 <= i < j < |rows| ==> rows[i].platform != rows[j].platform
  }

  predicate DistinctRevenue(revRows: seq<RevenueRow>) {
    forall i, j :: 0 <= i < j < |revRows| ==> revRows[i].platform != revRows[j].platform
  }

  predicate DistinctEntries(entries: seq<Entry>) {
    forall i, j :: 0 <= i < j < |entries| ==> entries[i].platform != entries[j].platform
  }

  predicate Listed(entries: seq<Entry>, platform: string) {
    exists i :: 0 <= i < |entries| && entries[i].platform == platform
  }

  function ClicksOf(rows: seq<ClickRow>, platform: string): int {
    if rows == [] then 0
    else if rows[|rows| - 1].platform == platform then rows[|rows| - 1].clicks
    else ClicksOf(rows[..|rows| - 1], platform)
  }

  /** What the entries without clicks are: earned by a platform that nobody clicked. */
  predicate RestEntry(rows: seq<ClickRow>, revRows: seq<RevenueRow>, e: Entry) {
    && e.clicks == 0 && !Clicked(rows, e.platform)
    && Earned(revRows, e.platform) && e.amount == AmountOf(revRows, e.platform)
  }

  lemma RestEntryStays(rows: seq<ClickRow>, revRows: seq<RevenueRow>, r: RevenueRow, e: Entry)
    requires RestEntry(rows, revRows, e) && !Earned(revRows, r.platform)
    ensures RestEntry(rows, revRows + [r], e) && e.platform != r.platform
  {
    hide Clicked;
    AmountOfLonger(revRows, r, e.platform);
    var k :| 0 <= k < |revRows| && revRows[k].platform == e.platform;
    assert (revRows + [r])[k].platform == e.platform;
  }

  lemma RestEntryAdded(rows: seq<ClickRow>, revRows: seq<RevenueRow>, r: RevenueRow)
    requires !Clicked(rows, r.platform)
    ensures RestEntry(rows, revRows + [r], Entry(r.platform, r.amount, 0))
  {
    hide Clicked;
    AmountOfLonger(revRows, r, r.platform);
    assert (revRows + [r])[|revRows|].platform == r.platform;
  }

  lemma {:induction false} RestHasNoClicks(rows: seq<ClickRow>, revRows: seq<RevenueRow>)
    requires DistinctRevenue(revRows)
    ensures var rest := WithoutClicks(rows, revRows);
            DistinctEntries(rest) && forall i :: 0 <= i < |rest| ==> RestEntry(rows, revRows, rest[i])
    decreases |revRows|
  {
    if revRows != [] {
      hide Clicked, RestEntry, DistinctRevenue, Earned;
      var init, last := revRows[..|revRows| - 1], revRows[|revRows| - 1];
      assert init + [last] == revRows;
      LastEarnedIsNew(init, last);
      RestHasNoClicks(rows, init);
      var rest := WithoutClicks(rows, init);
      forall i | 0 <= i < |rest| ensures RestEntry(rows, revRows, rest[i]) && rest[i].platform != last.platform {
        RestEntryStays(rows, init, last, rest[i]);
      }
      if !Clicked(rows, last.platform) {
        RestEntryAdded(rows, init, last);
      }
    }
  }

  lemma {:induction false} RestHasAll(rows: seq<ClickRow>, revRows: seq<RevenueRow>, p: string)
    requires Earned(revRows, p) && !Clicked(rows, p)
    ensures Listed(WithoutClicks(rows, revRows), p)
    decreases |revRows|
  {
    var init, last := revRows[..|revRows| - 1], revRows[|revRows| - 1];
    var rest := WithoutClicks(rows, init);
    if last.platform == p {
      assert (rest + [Entry(p, last.amount, 0)])[|rest|].platform == p;
    } else {
      var k :| 0 <= k < |revRows| && revRows[k].platform == p;
      assert init[k].platform == p;
      RestHasAll(rows, init, p);
      var i :| 0 <= i < |rest| && rest[i].platform == p;
      assert WithoutClicks(rows, revRows)[i].platform == p;
    }
  }

  lemma {:induction false} ClicksAt(rows: seq<ClickRow>, i: nat)
    requires DistinctClicks(rows) && i < |rows|
    ensures ClicksOf(rows, rows[i].platform) == rows[i].clicks
    decreases |rows|
  {
    if i < |rows| - 1 {
      ClicksAt(rows[..|rows| - 1], i);
    }
  }

  lemma {:induction false} NoClicks(rows: seq<ClickRow>, p: string)
    requires !Clicked(rows, p)
    ensures ClicksOf(rows, p) == 0
    decreases |rows|
  {
    if rows != [] {
      var init := rows[..|rows| - 1];
      assert forall i :: 0 <= i < |init| ==> init[i] == rows[i];
      NoClicks(init, p);
    }
  }

  /** Every platform of either list is listed exactly once, with its clicks, revenue and orders, and no other is. */
  lemma MergedIsFullOuterJoin(rows: seq<ClickRow>, revRows: seq<RevenueRow>)
    requires DistinctClicks(rows) && DistinctRevenue(revRows)
    ensures var entries := Merged(rows, revRows);
            && DistinctEntries(entries)
            && (forall p :: Listed(entries, p) <==> Clicked(rows, p) || Earned(revRows, p))
            && forall i :: 0 <= i < |entries| ==>
                 && entries[i].clicks == ClicksOf(rows, entries[i].platform)
                 && entries[i].amount == AmountOf(revRows, entries[i].platform)
  {
    var entries, n := Merged(rows, revRows), |rows|;
    var rest := WithoutClicks(rows, revRows);
    RestHasNoClicks(rows, revRows);
    assert forall i :: 0 <= i < n ==> entries[i].platform == rows[i].platform && Clicked(rows, rows[i].platform);
    assert forall i :: n <= i < |entries| ==> entries[i] == rest[i - n];
    ListedIffInEither(rows, revRows);
    forall i | 0 <= i < |entries|
      ensures entries[i].clicks == ClicksOf(rows, entries[i].platform)
      ensures entries[i].amount == AmountOf(revRows, entries[i].platform)
    {
      if i < n {
        ClicksAt(rows, i);
      } else {
        NoClicks(rows, entries[i].platform);
      }
    }
  }

  lemma ListedIffInEither(rows: seq<ClickRow>, revRows: seq<RevenueRow>)
    requires DistinctRevenue(revRows)
    ensures forall p :: Listed(Merged(rows, revRows), p) <==> Clicked(rows, p) || Earned(revRows, p)
  {
    var entries, n := Merged(rows, revRows), |rows|;
    var rest := WithoutClicks(rows, revRows);
    RestHasNoClicks(rows, revRows);
    forall p | Clicked(rows, p) ensures Listed(entries, p) {
      var i :| 0 <= i < n && rows[i].platform == p;
      assert entries[i].platform == p;
    }
    forall p | Earned(revRows, p) && !Clicked(rows, p) ensures Listed(entries, p) {
      RestHasAll(rows, revRows, p);
      var i :| 0 <= i < |rest| && rest[i].platform == p;
      assert entries[n + i].platform == p;
    }
    forall i | 0 <= i < |entries| ensures Clicked(rows, entries[i].platform) || Earned(revRows, entries[i].platform) {
      if i < n {
        assert rows[i].platform == entries[i].platform;
      } else {
        assert entries[i] == rest[i - n];
      }
    }
  }

  // ---------- totals ----------

  function TotalClicks(rows: seq<ClickRow>): int {
    if rows == [] then 0 else TotalClicks(rows[..|rows| - 1]) + rows[|rows| - 1].clicks
  }

  function TotalAmount(revRows: seq<RevenueRow>): Amount {
    if revRows == [] then NOTHING else Plus(TotalAmount(revRows[..|revRows| - 1]), revRows[|revRows| - 1].amount)
  }

  function ListedClicks(entries: seq<Entry>): int {
    if entries == [] then 0 else ListedClicks(entries[..|entries| - 1]) + entries[|entries| - 1].clicks
  }

  function ListedAmount(entries: seq<Entry>): Amount {
    if entries == [] then NOTHING else Plus(ListedAmount(entries[..|entries| - 1]), entries[|entries| - 1].amount)
  }

  lemma {:induction false} ListedConcat(a: seq<Entry>, b: seq<Entry>)
    ensures ListedClicks(a + b) == ListedClicks(a) + ListedClicks(b)
    ensures ListedAmount(a + b) == Plus(ListedAmount(a), ListedAmount(b))
    decreases |b|
  {
    if b == [] {
      assert a + b == a;
    } else {
      assert (a + b)[..|a + b| - 1] == a + b[..|b| - 1];
      ListedConcat(a, b[..|b| - 1]);
    }
  }

  lemma {:induction false} ClicksAreKept(rows: seq<ClickRow>, revRows: seq<RevenueRow>)
    ensures ListedClicks(WithClicks(rows, revRows)) == TotalClicks(rows)
    decreases |rows|
  {
    if rows != [] {
      ClicksAreKept(rows[..|rows| - 1], revRows);
      var init := WithClicks(rows[..|rows| - 1], revRows);
      assert WithClicks(rows, revRows)[..|rows| - 1] == init;
    }
  }

  lemma {:induction false} NoClicksAreAdded(rows: seq<ClickRow>, revRows: seq<RevenueRow>)
    ensures ListedClicks(WithoutClicks(rows, revRows)) == 0
    decreases |revRows|
  {
    if revRows != [] {
      var init := WithoutClicks(rows, revRows[..|revRows| - 1]);
      NoClicksAreAdded(rows, revRows[..|revRows| - 1]);
      assert init + [] == init;
      assert forall e: Entry :: (init + [e])[..|init|] == init;
    }
  }

  lemma OneMoreEntry(rows: seq<ClickRow>, last: ClickRow, revRows: seq<RevenueRow>)
    ensures ListedAmount(WithClicks(rows + [last], revRows))
         == Plus(ListedAmount(WithClicks(rows, revRows)), AmountOf(revRows, last.platform))
  {
    var longer := rows + [last];
    assert longer[..|rows|] == rows;
    assert WithClicks(longer, revRows)[..|rows|] == WithClicks(rows, revRows);
  }

  lemma AmountOfLonger(revRows: seq<RevenueRow>, r: RevenueRow, p: string)
    ensures AmountOf(revRows + [r], p) == if r.platform == p then r.amount else AmountOf(revRows, p)
  {
    assert (revRows + [r])[..|revRows|] == revRows;
  }

  lemma ClickedLonger(rows: seq<ClickRow>, last: ClickRow, p: string)
    ensures Clicked(rows + [last], p) <==> Clicked(rows, p) || p == last.platform
  {
    var longer := rows + [last];
    assert longer[..|rows|] == rows && longer[..|rows| + 1] == longer;
    ClickedGrows(longer, |rows|);
  }

  lemma LastIsNew(rows: seq<ClickRow>, last: ClickRow)
    requires DistinctClicks(rows + [last])
    ensures DistinctClicks(rows) && !Clicked(rows, last.platform)
  {
    var longer := rows + [last];
    assert forall i :: 0 <= i < |rows| ==> longer[i] == rows[i];
    assert longer[|rows|] == last;
  }

  /** One more revenue row adds its amount to the entries with clicks exactly if its platform has clicks. */
  lemma {:induction false} AmountIsMatched(rows: seq<ClickRow>, revRows: seq<RevenueRow>, r: RevenueRow)
    requires DistinctClicks(rows) && !Earned(revRows, r.platform)
    ensures ListedAmount(WithClicks(rows, revRows + [r]))
         == Plus(ListedAmount(WithClicks(rows, revRows)), if Clicked(rows, r.platform) then r.amount else NOTHING)
    decreases |rows|
  {
    hide *;
    if rows == [] {
      NoEntries(revRows, r);
    } else {
      var init, last := rows[..|rows| - 1], rows[|rows| - 1];
      assert init + [last] == rows;
      LastIsNew(init, last);
      AmountIsMatched(init, revRows, r);
      AmountStep(init, last, revRows, r);
    }
  }

  lemma NoEntries(revRows: seq<RevenueRow>, r: RevenueRow)
    ensures ListedAmount(WithClicks([], revRows + [r])) == ListedAmount(WithClicks([], revRows)) == NOTHING
    ensures !Clicked([], r.platform) && Plus(NOTHING, NOTHING) == NOTHING
  {
  }

  lemma AmountStep(rows: seq<ClickRow>, last: ClickRow, revRows: seq<RevenueRow>, r: RevenueRow)
    requires !Clicked(rows, last.platform) && !Earned(revRows, r.platform)
    requires ListedAmount(WithClicks(rows, revRows + [r]))
          == Plus(ListedAmount(WithClicks(rows, revRows)), if Clicked(rows, r.platform) then r.amount else NOTHING)
    ensures ListedAmount(WithClicks(rows + [last], revRows + [r]))
         == Plus(ListedAmount(WithClicks(rows + [last], revRows)), if Clicked(rows + [last], r.platform) then r.amount else NOTHING)
  {
    hide *;
    OneMoreEntry(rows, last, revRows);
    OneMoreEntry(rows, last, revRows + [r]);
    AmountOfLonger(revRows, r, last.platform);
    ClickedLonger(rows, last, r.platform);
    NotEarned(revRows, r.platform);
    PlusSwaps(ListedAmount(WithClicks(rows, revRows)), AmountOf(revRows, last.platform),
              if Clicked(rows, r.platform) then r.amount else NOTHING);
    PlusNothing(ListedAmount(WithClicks(rows, revRows)));
  }

  lemma {:induction false} NotEarned(revRows: seq<RevenueRow>, p: string)
    requires !Earned(revRows, p)
    ensures AmountOf(revRows, p) == NOTHING
    decreases |revRows|
  {
    if revRows != [] {
      var init := revRows[..|revRows| - 1];
      assert forall i :: 0 <= i < |init| ==> init[i] == revRows[i];
      NotEarned(init, p);
    }
  }

  lemma {:induction false} AmountsAreKept(rows: seq<ClickRow>, revRows: seq<RevenueRow>)
    requires DistinctClicks(rows) && DistinctRevenue(revRows)
    ensures Plus(ListedAmount(WithClicks(rows, revRows)), ListedAmount(WithoutClicks(rows, revRows))) == TotalAmount(revRows)
    decreases |revRows|
  {
    hide *;
    if revRows == [] {
      NothingEarned(rows);
    } else {
      var init, last := revRows[..|revRows| - 1], revRows[|revRows| - 1];
      assert init + [last] == revRows;
      TotalGrows(init, last);
      LastEarnedIsNew(init, last);
      AmountsAreKept(rows, init);
      AmountIsMatched(rows, init, last);
      RestGrows(rows, init, last);
      PlusEither(ListedAmount(WithClicks(rows, init)), ListedAmount(WithoutClicks(rows, init)), last.amount);
    }
  }

  lemma TotalGrows(revRows: seq<RevenueRow>, last: RevenueRow)
    ensures TotalAmount(revRows + [last]) == Plus(TotalAmount(revRows), last.amount)
  {
    assert (revRows + [last])[..|revRows|] == revRows;
  }

  lemma LastEarnedIsNew(revRows: seq<RevenueRow>, last: RevenueRow)
    requires DistinctRevenue(revRows + [last])
    ensures DistinctRevenue(revRows) && !Earned(revRows, last.platform)
  {
    var longer := revRows + [last];
    assert forall i :: 0 <= i < |revRows| ==> longer[i] == revRows[i];
    assert longer[|revRows|] == last;
  }

  lemma ListedAppend(entries: seq<Entry>, e: Entry)
    ensures ListedAmount(entries + [e]) == Plus(ListedAmount(entries), e.amount)
  {
    hide Plus;
    assert (entries + [e])[..|entries|] == entries;
  }

  lemma RestAppend(rows: seq<ClickRow>, revRows: seq<RevenueRow>, r: RevenueRow)
    ensures WithoutClicks(rows, revRows + [r])
         == WithoutClicks(rows, revRows) + if Clicked(rows, r.platform) then [] else [Entry(r.platform, r.amount, 0)]
  {
    hide Clicked;
    assert (revRows + [r])[..|revRows|] == revRows;
  }

  lemma RestGrows(rows: seq<ClickRow>, revRows: seq<RevenueRow>, r: RevenueRow)
    ensures ListedAmount(WithoutClicks(rows, revRows + [r]))
         == Plus(ListedAmount(WithoutClicks(rows, revRows)), if Clicked(rows, r.platform) then NOTHING else r.amount)
  {
    hide *;
    var rest := WithoutClicks(rows, revRows);
    RestAppend(rows, revRows, r);
    if Clicked(rows, r.platform) {
      PlusNothing(ListedAmount(rest));
      assert rest + [] == rest;
    } else {
      ListedAppend(rest, Entry(r.platform, r.amount, 0));
    }
  }

  lemma {:induction false} NothingListed(rows: seq<ClickRow>)
    ensures ListedAmount(WithClicks(rows, [])) == NOTHING
    decreases |rows|
  {
    if rows != [] {
      NothingListed(rows[..|rows| - 1]);
      assert WithClicks(rows, [])[..|rows| - 1] == WithClicks(rows[..|rows| - 1], []);
    }
  }

  lemma NothingEarned(rows: seq<ClickRow>)
    ensures Plus(ListedAmount(WithClicks(rows, [])), ListedAmount(WithoutClicks(rows, []))) == TotalAmount([])
  {
    NothingListed(rows);
  }

  /** No click, cent or order is lost or counted twice. */
  lemma TotalsAreKept(rows: seq<ClickRow>, revRows: seq<RevenueRow>)
    requires DistinctClicks(rows) && DistinctRevenue(revRows)
    ensures ListedClicks(Merged(rows, revRows)) == TotalClicks(rows)
    ensures ListedAmount(Merged(rows, revRows)) == TotalAmount(revRows)
  {
    ListedConcat(WithClicks(rows, revRows), WithoutClicks(rows, revRows));
    ClicksAreKept(rows, revRows);
    NoClicksAreAdded(rows, revRows);
    AmountsAreKept(rows, revRows);
  }
}
