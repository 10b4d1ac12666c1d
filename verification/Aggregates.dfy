/** Figures regrouped through maps: the category tree and the net-worth trend of the dashboard
    (server/internal/dashboard/service.go), and the category spend computed once there and once more
    by budget execution (server/internal/budget/service.go). */
module Aggregates {
  import opened LedgerTables
  import opened MapSum
  import opened Wrappers

  /** Go's m[k] on a map of numbers. */
  function Lookup<K>(m: map<K, int>, k: K): int {
    if k in m then m[k] else 0
  }

  // ---------------------------------------------------------------- GetCategoryBreakdown

  /** One row of the grouped query: a category, its parent, its total. */
  datatype Spent = Spent(category: Id, parent: Option<Id>, amount: int)

  datatype Item = Item(amount: int, children: seq<Spent>)

  /** GROUP BY category: one row each. */
  ghost predicate Grouped(rows: seq<Spent>) {
    forall i, j :: 0 <= i < j < |rows| ==> rows[i].category != rows[j].category
  }

  function Total(rows: seq<Spent>): int {
    if rows == [] then 0 else Total(rows[..|rows| - 1]) + rows[|rows| - 1].amount
  }

  /** The rows under a parent, in query order. */
  function Under(rows: seq<Spent>, parent: Id): seq<Spent> {
    if rows == [] then []
    else
      var last := rows[|rows| - 1];
      Under(rows[..|rows| - 1], parent) + (if last.parent == Some(parent) then [last] else [])
  }

  /** Spend booked on a category itself. */
  function Direct(rows: seq<Spent>, category: Id): int {
    if rows == [] then 0
    else
      var last := rows[|rows| - 1];
      Direct(rows[..|rows| - 1], category) + (if last.category == category then last.amount else 0)
  }

  /** The top-level entry a row counts towards. */
  function TopOf(row: Spent): Id {
    if row.parent.Some? then row.parent.value else row.category
  }

  predicate IsTop(rows: seq<Spent>, c: Id) {
    exists row :: row in rows && TopOf(row) == c
  }

  predicate HasOwnRow(rows: seq<Spent>, c: Id) {
    exists row :: row in rows && row.category == c && row.parent.None?
  }

  predicate HasChildren(rows: seq<Spent>, c: Id) {
    exists row :: row in rows && row.parent == Some(c)
  }

  /** What the tree shows for a top-level category: own spend plus children. */
  function ItemFor(rows: seq<Spent>, c: Id): Item {
    Item((if HasOwnRow(rows, c) then Direct(rows, c) else 0) + Total(Under(rows, c)), Under(rows, c))
  }

  ghost predicate IsBreakdown(rows: seq<Spent>, items: map<Id, Item>) {
    forall c :: (c in items <==> IsTop(rows, c)) && (c in items ==> items[c] == ItemFor(rows, c))
  }

  lemma TotalOfOneMore(rows: seq<Spent>, row: Spent)
    ensures Total(rows + [row]) == Total(rows) + row.amount
  {
    assert (rows + [row])[..|rows|] == rows;
  }

  lemma {:induction false} NoRowNoSpend(rows: seq<Spent>, c: Id)
    requires forall i :: 0 <= i < |rows| ==> rows[i].category != c
    ensures Direct(rows, c) == 0
  {
    if rows != [] {
      NoRowNoSpend(rows[..|rows| - 1], c);
    }
  }

  lemma MembersOfOneMore(rows: seq<Spent>, row: Spent, c: Id)
    ensures IsTop(rows + [row], c) <==> IsTop(rows, c) || TopOf(row) == c
    ensures HasOwnRow(rows + [row], c) <==> HasOwnRow(rows, c) || (row.category == c && row.parent.None?)
    ensures HasChildren(rows + [row], c) <==> HasChildren(rows, c) || row.parent == Some(c)
  {
    assert row in rows + [row];
    assert forall other :: other in rows ==> other in rows + [row];
  }

  /** One more row moves the entry it counts towards and no other. */
  lemma ItemOfOneMore(rows: seq<Spent>, row: Spent, c: Id)
    requires Grouped(rows + [row])
    ensures var was, now := ItemFor(rows, c), ItemFor(rows + [row], c);
            && now.amount == was.amount + (if TopOf(row) == c then row.amount else 0)
            && now.children == was.children + (if row.parent == Some(c) then [row] else [])
  {
    MembersOfOneMore(rows, row, c);
    FreshCategory(rows, row);
    hide HasOwnRow, Grouped;
    var more := rows + [row];
    assert more[..|more| - 1] == rows && more[|more| - 1] == row;
    assert Direct(more, c) == Direct(rows, c) + (if row.category == c then row.amount else 0);
    assert Under(more, c) == Under(rows, c) + (if row.parent == Some(c) then [row] else []);
    TotalOfOneMore(Under(rows, c), row);
    assert Under(rows, c) + [] == Under(rows, c);
  }

  lemma FreshCategory(rows: seq<Spent>, row: Spent)
    requires Grouped(rows + [row])
    ensures Grouped(rows) && Direct(rows, row.category) == 0 && !HasOwnRow(rows, row.category)
  {
    var more := rows + [row];
    forall i | 0 <= i < |rows|
      ensures rows[i].category != row.category
    {
      assert more[i] == rows[i] && more[|rows|] == row;
    }
    forall i, j | 0 <= i < j < |rows|
      ensures rows[i].category != rows[j].category
    {
      assert more[i] == rows[i] && more[j] == rows[j];
    }
    NoRowNoSpend(rows, row.category);
  }

  lemma {:induction false} EmptyItem(rows: seq<Spent>, c: Id)
    requires Grouped(rows) && !IsTop(rows, c)
    ensures ItemFor(rows, c) == Item(0, [])
  {
    if rows != [] {
      var before, row := rows[..|rows| - 1], rows[|rows| - 1];
      assert rows == before + [row];
      MembersOfOneMore(before, row, c);
      ItemOfOneMore(before, row, c);
      FreshCategory(before, row);
      EmptyItem(before, c);
    }
  }

  lemma {:induction false} DirectIs(rows: seq<Spent>, row: Spent)
    requires Grouped(rows) && row in rows
    ensures Direct(rows, row.category) == row.amount
  {
    var before, last := rows[..|rows| - 1], rows[|rows| - 1];
    assert rows == before + [last];
    FreshCategory(before, last);
    if row != last {
      DirectIs(before, row);
    }
  }

  lemma {:induction false} UnderIs(rows: seq<Spent>, parent: Id)
    ensures forall row :: row in Under(rows, parent) <==> row in rows && row.parent == Some(parent)
    ensures multiset(Under(rows, parent)) <= multiset(rows)
  {
    if rows != [] {
      var before, last := rows[..|rows| - 1], rows[|rows| - 1];
      assert rows == before + [last];
      UnderIs(before, parent);
    }
  }

  /** The tree in the rows' own terms: its entries are the categories without a parent and the parents, each with its
      children's rows, at its own amount if it has no parent plus theirs. */
  lemma BreakdownRows(rows: seq<Spent>, items: map<Id, Item>, c: Id)
    requires Grouped(rows) && IsBreakdown(rows, items)
    ensures c in items <==>
              exists row :: row in rows && (row.parent == Some(c) || (row.parent == None && row.category == c))
    ensures c in items ==>
              && (forall row :: row in items[c].children <==> row in rows && row.parent == Some(c))
              && (forall own :: own in rows && own.category == c && own.parent == None ==>
                    items[c].amount == own.amount + Total(items[c].children))
              && ((forall own :: own in rows && own.category == c ==> own.parent != None) ==>
                    items[c].amount == Total(items[c].children))
  {
    UnderIs(rows, c);
    hide Direct, Under, Grouped, Total;
    assert forall row :: row in rows ==>
        (TopOf(row) == c <==> row.parent == Some(c) || (row.parent == None && row.category == c));
    forall own | own in rows && own.category == c && own.parent == None
      ensures c in items ==> items[c].amount == own.amount + Total(items[c].children)
    {
      DirectIs(rows, own);
    }
  }

  /** The breakdown without its last row. */
  function Previous(rows: seq<Spent>, row: Spent, items: map<Id, Item>): map<Id, Item> {
    var top := TopOf(row);
    if IsTop(rows, top) then items[top := ItemFor(rows, top)] else items - {top}
  }

  lemma PreviousIsBreakdown(rows: seq<Spent>, row: Spent, items: map<Id, Item>)
    requires Grouped(rows + [row]) && IsBreakdown(rows + [row], items)
    ensures IsBreakdown(rows, Previous(rows, row, items))
  {
    hide IsTop, ItemFor, Grouped;
    forall c
      ensures var was := Previous(rows, row, items);
              (c in was <==> IsTop(rows, c)) && (c in was ==> was[c] == ItemFor(rows, c))
    {
      MembersOfOneMore(rows, row, c);
      if c != TopOf(row) {
        ItemOfOneMore(rows, row, c);
        assert ItemFor(rows + [row], c) == ItemFor(rows, c);
      }
    }
  }

  lemma PreviousSum(rows: seq<Spent>, row: Spent, items: map<Id, Item>, amount: Item -> int)
    requires Grouped(rows + [row]) && IsBreakdown(rows + [row], items)
    requires forall i: Item :: amount(i) == i.amount
    ensures Sum(items, amount) == Sum(Previous(rows, row, items), amount) + row.amount
  {
    var top := TopOf(row);
    MembersOfOneMore(rows, row, top);
    ItemOfOneMore(rows, row, top);
    FreshCategory(rows, row);
    if !IsTop(rows, top) {
      EmptyItem(rows, top);
    }
    hide IsTop, ItemFor, Grouped;
    assert top in items && items[top] == ItemFor(rows + [row], top);
    SumUpdate(items, amount, top, ItemFor(rows, top));
    SumWithout(items, amount, top);
  }

  /** Top-level amounts add up to the total, whatever the grouping. */
  lemma {:induction false} BreakdownAddsUp(rows: seq<Spent>, items: map<Id, Item>, amount: Item -> int)
    requires Grouped(rows) && IsBreakdown(rows, items)
    requires forall i: Item :: amount(i) == i.amount
    ensures Sum(items, amount) == Total(rows)
  {
    if rows == [] {
      assert items == map[];
    } else {
      var before, row := rows[..|rows| - 1], rows[|rows| - 1];
      assert rows == before + [row];
      FreshCategory(before, row);
      PreviousIsBreakdown(before, row, items);
      PreviousSum(before, row, items, amount);
      BreakdownAddsUp(before, Previous(before, row, items), amount);
    }
  }

  lemma {:induction false} NothingUnder(rows: seq<Spent>, c: Id)
    requires !HasChildren(rows, c)
    ensures Under(rows, c) == []
  {
    if rows != [] {
      var before, row := rows[..|rows| - 1], rows[|rows| - 1];
      assert rows == before + [row];
      MembersOfOneMore(before, row, c);
      NothingUnder(before, c);
    }
  }

  lemma TopHasRowOrChildren(rows: seq<Spent>, c: Id)
    ensures IsTop(rows, c) <==> HasOwnRow(rows, c) || HasChildren(rows, c)
  {
    if HasOwnRow(rows, c) {
      var row :| row in rows && row.category == c && row.parent.None?;
      assert TopOf(row) == c;
    }
    if HasChildren(rows, c) {
      var row :| row in rows && row.parent == Some(c);
      assert TopOf(row) == c;
    }
  }

  ghost predicate GatheredAt(rows: seq<Spent>, children: map<Id, seq<Spent>>, childAmount: map<Id, int>,
                             items: map<Id, Item>, c: Id) {
    && (c in children <==> HasChildren(rows, c)) && (c in childAmount <==> c in children)
    && (c in children ==> children[c] == Under(rows, c))
    && (c in childAmount ==> childAmount[c] == Total(Under(rows, c)))
    && (c in items <==> HasOwnRow(rows, c))
    && (c in items ==> items[c] == Item(Direct(rows, c), []))
  }

  /** What the first pass has gathered from the rows it has seen. */
  ghost predicate Gathered(rows: seq<Spent>, children: map<Id, seq<Spent>>, childAmount: map<Id, int>,
                           items: map<Id, Item>) {
    forall c :: GatheredAt(rows, children, childAmount, items, c)
  }

  lemma SharesOfOneMore(rows: seq<Spent>, row: Spent, c: Id)
    requires Grouped(rows + [row])
    ensures row.category == c ==> Direct(rows + [row], c) == row.amount
    ensures row.category != c ==> Direct(rows + [row], c) == Direct(rows, c)
    ensures row.parent == Some(c) ==> Under(rows + [row], c) == Under(rows, c) + [row]
                                      && Total(Under(rows + [row], c)) == Total(Under(rows, c)) + row.amount
    ensures row.parent != Some(c) ==> Under(rows + [row], c) == Under(rows, c)
    ensures !HasChildren(rows, c) ==> Under(rows, c) == [] && Total(Under(rows, c)) == 0
  {
    FreshCategory(rows, row);
    if !HasChildren(rows, c) {
      NothingUnder(rows, c);
    }
    hide Grouped, HasChildren;
    var more := rows + [row];
    assert more[..|more| - 1] == rows && more[|more| - 1] == row;
    TotalOfOneMore(Under(rows, c), row);
  }

  lemma Untouched(rows: seq<Spent>, row: Spent, c: Id)
    requires Grouped(rows + [row])
    ensures row.parent != Some(c) ==> Under(rows + [row], c) == Under(rows, c)
    ensures HasOwnRow(rows, c) ==> Direct(rows + [row], c) == Direct(rows, c)
  {
    FreshCategory(rows, row);
    SharesOfOneMore(rows, row, c);
  }

  lemma GatherChild(rows: seq<Spent>, row: Spent, children: map<Id, seq<Spent>>, childAmount: map<Id, int>,
                    items: map<Id, Item>, p: Id, under: seq<Spent>, amount: int, c: Id)
    requires Grouped(rows + [row]) && row.parent == Some(p)
    requires under == Under(rows + [row], p) && amount == Total(under)
    requires GatheredAt(rows, children, childAmount, items, c)
    ensures GatheredAt(rows + [row], children[p := under], childAmount[p := amount], items, c)
  {
    MembersOfOneMore(rows, row, c);
    Untouched(rows, row, c);
    hide HasOwnRow, HasChildren, Grouped, Direct, Under, Total;
  }

  lemma GatherOwn(rows: seq<Spent>, row: Spent, children: map<Id, seq<Spent>>, childAmount: map<Id, int>,
                  items: map<Id, Item>, c: Id)
    requires Grouped(rows + [row]) && row.parent.None?
    requires GatheredAt(rows, children, childAmount, items, c)
    ensures c == row.category ==> c !in items
    ensures GatheredAt(rows + [row], children, childAmount, items[row.category := Item(row.amount, [])], c)
  {
    FreshCategory(rows, row);
    MembersOfOneMore(rows, row, c);
    SharesOfOneMore(rows, row, c);
    hide HasOwnRow, HasChildren, Grouped, Direct, Under, Total;
  }

  lemma GatherOne(rows: seq<Spent>, row: Spent, children: map<Id, seq<Spent>>, childAmount: map<Id, int>,
                  items: map<Id, Item>)
    requires Grouped(rows + [row]) && Gathered(rows, children, childAmount, items)
    ensures row.parent.Some? ==>
              var p := row.parent.value;
              Gathered(rows + [row], children[p := (if p in children then children[p] else []) + [row]],
                       childAmount[p := (if p in childAmount then childAmount[p] else 0) + row.amount], items)
    ensures row.parent.None? ==>
              row.category !in items
              && Gathered(rows + [row], children, childAmount, items[row.category := Item(row.amount, [])])
  {
    hide HasOwnRow, HasChildren, Grouped, Direct, Under, Total;
    if row.parent.Some? {
      var p := row.parent.value;
      assert GatheredAt(rows, children, childAmount, items, p);
      SharesOfOneMore(rows, row, p);
      var under := (if p in children then children[p] else []) + [row];
      var amount := (if p in childAmount then childAmount[p] else 0) + row.amount;
      var nowChildren, nowAmount := children[p := under], childAmount[p := amount];
      hide GatheredAt;
      forall c
        ensures GatheredAt(rows + [row], nowChildren, nowAmount, items, c)
      {
        GatherChild(rows, row, children, childAmount, items, p, under, amount, c);
      }
    } else {
      hide GatheredAt;
      var nowItems := items[row.category := Item(row.amount, [])];
      GatherOwn(rows, row, children, childAmount, items, row.category);
      forall c
        ensures GatheredAt(rows + [row], children, childAmount, nowItems, c)
      {
        GatherOwn(rows, row, children, childAmount, items, c);
      }
    }
  }

  lemma GatherNone()
    ensures Gathered([], map[], map[], map[]) && ListsOnce([], map[])
  {}

  lemma GroupedPrefix(rows: seq<Spent>, i: nat)
    requires Grouped(rows) && i <= |rows|
    ensures Grouped(rows[..i])
  {}

  ghost predicate FoldedAt(rows: seq<Spent>, pending: set<Id>, items: map<Id, Item>, c: Id) {
    && (c in items <==> HasOwnRow(rows, c) || (HasChildren(rows, c) && c !in pending))
    && (c in items ==>
          items[c] == if HasChildren(rows, c) && c !in pending then ItemFor(rows, c) else Item(Direct(rows, c), []))
  }

  /** After the second pass has dealt with all parents but those pending. */
  ghost predicate Folded(rows: seq<Spent>, pending: set<Id>, items: map<Id, Item>) {
    forall c :: FoldedAt(rows, pending, items, c)
  }

  lemma NothingFolded(rows: seq<Spent>, children: map<Id, seq<Spent>>, childAmount: map<Id, int>, items: map<Id, Item>)
    requires Gathered(rows, children, childAmount, items)
    ensures Folded(rows, children.Keys, items) && childAmount.Keys == children.Keys
    ensures forall c :: c in children ==>
              HasChildren(rows, c) && children[c] == Under(rows, c) && childAmount[c] == Total(Under(rows, c))
  {
    hide HasOwnRow, HasChildren, Direct, Under, Total;
    forall c
      ensures FoldedAt(rows, children.Keys, items, c) && (c in childAmount <==> c in children)
      ensures c in children ==>
                HasChildren(rows, c) && children[c] == Under(rows, c) && childAmount[c] == Total(Under(rows, c))
    {
      assert GatheredAt(rows, children, childAmount, items, c);
    }
  }

  lemma FoldOne(rows: seq<Spent>, pending: set<Id>, parent: Id, items: map<Id, Item>, amount: int, under: seq<Spent>)
    requires Folded(rows, pending, items) && parent in pending && HasChildren(rows, parent)
    requires amount == Total(under) && under == Under(rows, parent)
    ensures var own := if parent in items then items[parent].amount else 0;
            Folded(rows, pending - {parent}, items[parent := Item(own + amount, under)])
  {
    hide HasOwnRow, HasChildren, Direct, Under, Total;
    var own := if parent in items then items[parent].amount else 0;
    var rest, now := pending - {parent}, items[parent := Item(own + amount, under)];
    assert FoldedAt(rows, pending, items, parent);
    forall c
      ensures FoldedAt(rows, rest, now, c)
    {
      assert FoldedAt(rows, pending, items, c);
    }
  }

  lemma AllFolded(rows: seq<Spent>, items: map<Id, Item>)
    requires Folded(rows, {}, items)
    ensures IsBreakdown(rows, items)
  {
    hide HasOwnRow, HasChildren, Direct, Total;
    forall c
      ensures (c in items <==> IsTop(rows, c)) && (c in items ==> items[c] == ItemFor(rows, c))
    {
      assert FoldedAt(rows, {}, items, c);
      TopHasRowOrChildren(rows, c);
      if !HasChildren(rows, c) {
        NothingUnder(rows, c);
        assert Total([]) == 0 by { TotalOfNone(); }
      }
    }
  }

  lemma TotalOfNone()
    ensures Total([]) == 0
  {}

  /** The list of top-level entries names each entry once. */
  ghost predicate ListsOnce(order: seq<Id>, items: map<Id, Item>) {
    && (forall c :: c in order <==> c in items)
    && (forall i, j :: 0 <= i < j < |order| ==> order[i] != order[j])
  }

  lemma ListOneMore(order: seq<Id>, items: map<Id, Item>, c: Id, item: Item)
    requires ListsOnce(order, items)
    ensures ListsOnce(if c in items then order else order + [c], items[c := item])
  {}

  /** First pass over the query's rows. */
  method GatherRows(rows: seq<Spent>)
    returns (children: map<Id, seq<Spent>>, childAmount: map<Id, int>, items: map<Id, Item>, order: seq<Id>, total: int)
    requires Grouped(rows)
    ensures total == Total(rows)
    ensures Gathered(rows, children, childAmount, items) && ListsOnce(order, items)
  {
    hide Gathered, Grouped, ListsOnce;
    children, childAmount, items, order, total := map[], map[], map[], [], 0;
    GatherNone();
    for i := 0 to |rows|
      invariant total == Total(rows[..i])
      invariant Gathered(rows[..i], children, childAmount, items) && ListsOnce(order, items)
    {
      var row := rows[i];
      assert rows[..i + 1] == rows[..i] + [row];
      GroupedPrefix(rows, i + 1);
      GatherOne(rows[..i], row, children, childAmount, items);
      TotalOfOneMore(rows[..i], row);
      total := total + row.amount;
      if row.parent.Some? {
        var p := row.parent.value;
        children := children[p := (if p in children then children[p] else []) + [row]];
        childAmount := childAmount[p := (if p in childAmount then childAmount[p] else 0) + row.amount];
      } else {
        ListOneMore(order, items, row.category, Item(row.amount, []));
        items := items[row.category := Item(row.amount, [])];
        order := order + [row.category];
      }
    }
    assert rows[..|rows|] == rows;
  }

  /** Second pass over the map of parents, in no particular order. */
  method FoldChildren(ghost rows: seq<Spent>, children: map<Id, seq<Spent>>, childAmount: map<Id, int>,
                      gathered: map<Id, Item>, listed: seq<Id>)
    returns (items: map<Id, Item>, order: seq<Id>)
    requires Gathered(rows, children, childAmount, gathered) && ListsOnce(listed, gathered)
    ensures IsBreakdown(rows, items) && ListsOnce(order, items)
  {
    hide Folded, Gathered, ItemFor, Under, Total, HasChildren, ListsOnce, IsBreakdown;
    NothingFolded(rows, children, childAmount, gathered);
    items, order := gathered, listed;
    var pending := children.Keys;
    while pending != {}
      invariant pending <= children.Keys
      invariant Folded(rows, pending, items) && ListsOnce(order, items)
      decreases pending
    {
      var parent :| parent in pending;
      var under, amount := children[parent], childAmount[parent];
      FoldOne(rows, pending, parent, items, amount, under);
      pending := pending - {parent};
      if parent !in items {
        ListOneMore(order, items, parent, Item(amount, under));
        items := items[parent := Item(amount, under)];
        order := order + [parent];
      } else {
        ListOneMore(order, items, parent, Item(items[parent].amount + amount, under));
        items := items[parent := Item(items[parent].amount + amount, under)];
      }
    }
    AllFolded(rows, items);
  }

  /** The tree of the month. */
  method CategoryBreakdown(rows: seq<Spent>) returns (items: map<Id, Item>, order: seq<Id>, total: int)
    requires Grouped(rows)
    ensures IsBreakdown(rows, items) && ListsOnce(order, items)
    ensures total == Total(rows) == Sum(items, (i: Item) => i.amount)
  {
    var children, childAmount;
    children, childAmount, items, order, total := GatherRows(rows);
    items, order := FoldChildren(rows, children, childAmount, items, order);
    BreakdownAddsUp(rows, items, (i: Item) => i.amount);
  }

  // ---------------------------------------------------------------- GetNetWorthTrend

  /** Net income of a period; periods are numbered months or years. */
  datatype Period = Period(number: int, net: int)

  datatype Point = Point(number: int, netWorth: int)

  /** GROUP BY period: one row each; a period without rows has net 0. */
  function NetOf(periods: seq<Period>, number: int): int {
    if periods == [] then 0
    else if periods[|periods| - 1].number == number then periods[|periods| - 1].net
    else NetOf(periods[..|periods| - 1], number)
  }

  /** Sum of the nets of the periods after `number`, up to and including `last`. */
  function NetAfter(periods: seq<Period>, number: int, last: int): int
    decreases last - number
  {
    if number >= last then 0 else NetOf(periods, number + 1) + NetAfter(periods, number + 1, last)
  }

  lemma NetOfOneMore(periods: seq<Period>, i: nat, n: int)
    requires i < |periods|
    ensures NetOf(periods[..i + 1], n) == if periods[i].number == n then periods[i].net else NetOf(periods[..i], n)
  {
    assert periods[..i + 1][..i] == periods[..i];
  }

  /** The period's own row, or nothing. */
  lemma {:induction false} NetOfIs(periods: seq<Period>, n: int)
    requires forall i, j :: 0 <= i < j < |periods| ==> periods[i].number != periods[j].number
    ensures forall p :: p in periods && p.number == n ==> NetOf(periods, n) == p.net
    ensures (forall p :: p in periods ==> p.number != n) ==> NetOf(periods, n) == 0
  {
    if periods != [] {
      var before, last := periods[..|periods| - 1], periods[|periods| - 1];
      assert periods == before + [last];
      NetOfIs(before, n);
    }
  }

  method NetMap(periods: seq<Period>) returns (netMap: map<int, int>)
    ensures forall n :: Lookup(netMap, n) == NetOf(periods, n)
  {
    netMap := map[];
    for i := 0 to |periods|
      invariant forall n :: Lookup(netMap, n) == NetOf(periods[..i], n)
    {
      var updated := netMap[periods[i].number := periods[i].net];
      forall n
        ensures Lookup(updated, n) == NetOf(periods[..i + 1], n)
      {
        NetOfOneMore(periods, i, n);
        assert Lookup(netMap, n) == NetOf(periods[..i], n);
      }
      netMap := updated;
    }
    assert periods[..|periods|] == periods;
  }

  /** Newest period first: each point is the one after it less that one's net. */
  ghost predicate Backwards(all: seq<Point>, current: int, periods: seq<Period>, now: int, upTo: nat)
    requires upTo <= |all|
  {
    && (forall j :: 0 <= j < |all| ==> all[j].number == now - j)
    && (upTo > 0 ==> all[0].netWorth == current)
    && (forall j :: 0 < j < upTo ==> all[j - 1].netWorth - all[j].netWorth == NetOf(periods, all[j - 1].number))
  }

  lemma {:induction false} BackwardsTotals(all: seq<Point>, current: int, periods: seq<Period>, now: int, j: nat)
    requires j < |all| && Backwards(all, current, periods, now, |all|)
    ensures all[j].netWorth + NetAfter(periods, all[j].number, now) == current
  {
    if j > 0 {
      BackwardsTotals(all, current, periods, now, j - 1);
    }
  }

  method FillBackwards(current: int, periods: seq<Period>, netMap: map<int, int>, now: int, count: nat)
    returns (all: seq<Point>)
    requires forall n :: Lookup(netMap, n) == NetOf(periods, n)
    ensures |all| == count && Backwards(all, current, periods, now, count)
  {
    all := seq(count, i => Point(now - i, 0));
    var runningTotal := current;
    for i := 0 to count
      invariant |all| == count && Backwards(all, current, periods, now, i)
      invariant runningTotal == if i == 0 then current else all[i - 1].netWorth
    {
      if i > 0 {
        runningTotal := runningTotal - Lookup(netMap, all[i - 1].number);
      }
      all := all[i := all[i].(netWorth := runningTotal)];
    }
  }

  /** Today's net worth, and before it whatever takes the later periods' net to arrive at it. */
  method NetWorthTrend(current: int, periods: seq<Period>, now: int, count: nat) returns (points: seq<Point>)
    ensures |points| == count
    ensures forall k :: 0 <= k < count ==> points[k].number == now - (count - 1 - k)
    ensures count > 0 ==> points[count - 1].netWorth == current
    ensures forall k :: 0 < k < count ==>
              points[k].netWorth - points[k - 1].netWorth == NetOf(periods, points[k].number)
    ensures forall k :: 0 <= k < count ==>
              points[k].netWorth + NetAfter(periods, points[k].number, now) == current
  {
    var netMap := NetMap(periods);
    var all := FillBackwards(current, periods, netMap, now, count);
    points := [];
    for k := 0 to count
      invariant |points| == k
      invariant forall j :: 0 <= j < k ==> points[j] == all[count - 1 - j]
    {
      points := points + [all[count - 1 - k]];
    }
    forall k | 0 <= k < count
      ensures points[k].netWorth + NetAfter(periods, points[k].number, now) == current
    {
      BackwardsTotals(all, current, periods, now, count - 1 - k);
    }
    forall k | 0 < k < count
      ensures points[k].netWorth - points[k - 1].netWorth == NetOf(periods, points[k].number)
    {
      assert all[count - k - 1].netWorth - all[count - k].netWorth == NetOf(periods, all[count - k - 1].number);
    }
  }

  // ---------------------------------------------------------------- the two category roll-ups

  /** Spend of the rows whose parent is c. */
  function ChildSpend(rows: seq<Spent>, c: Id): int {
    Total(Under(rows, c))
  }

  /** spentMap: the query returns each category once. */
  method SpentMap(rows: seq<Spent>) returns (spentMap: map<Id, int>)
    requires Grouped(rows)
    ensures forall c :: Lookup(spentMap, c) == Direct(rows, c)
  {
    spentMap := map[];
    for i := 0 to |rows|
      invariant forall c :: Lookup(spentMap, c) == Direct(rows[..i], c)
    {
      var row := rows[i];
      var updated := spentMap[row.category := row.amount];
      assert rows[..i + 1] == rows[..i] + [row];
      GroupedPrefix(rows, i + 1);
      forall c
        ensures Lookup(updated, c) == Direct(rows[..i + 1], c)
      {
        SharesOfOneMore(rows[..i], row, c);
        assert Lookup(spentMap, c) == Direct(rows[..i], c);
      }
      spentMap := updated;
    }
    assert rows[..|rows|] == rows;
  }

  method SubSpentMap(rows: seq<Spent>) returns (subSpentMap: map<Id, int>)
    requires Grouped(rows)
    ensures forall c :: Lookup(subSpentMap, c) == ChildSpend(rows, c)
  {
    subSpentMap := map[];
    for i := 0 to |rows|
      invariant forall c :: Lookup(subSpentMap, c) == ChildSpend(rows[..i], c)
    {
      var row := rows[i];
      var updated := if row.parent.None? then subSpentMap
                     else subSpentMap[row.parent.value := Lookup(subSpentMap, row.parent.value) + row.amount];
      assert rows[..i + 1] == rows[..i] + [row];
      GroupedPrefix(rows, i + 1);
      forall c
        ensures Lookup(updated, c) == ChildSpend(rows[..i + 1], c)
      {
        SharesOfOneMore(rows[..i], row, c);
        assert Lookup(subSpentMap, c) == ChildSpend(rows[..i], c);
      }
      subSpentMap := updated;
    }
    assert rows[..|rows|] == rows;
  }

  /** GetBudgetSummary: from rows that carry their parent. */
  method DashboardSpend(rows: seq<Spent>, budgets: seq<Id>) returns (spent: seq<int>)
    requires Grouped(rows)
    ensures |spent| == |budgets|
    ensures forall b :: 0 <= b < |budgets| ==> spent[b] == Direct(rows, budgets[b]) + ChildSpend(rows, budgets[b])
  {
    var spentMap := SpentMap(rows);
    var subSpentMap := SubSpentMap(rows);
    spent := [];
    for b := 0 to |budgets|
      invariant |spent| == b
      invariant forall j :: 0 <= j < b ==> spent[j] == Direct(rows, budgets[j]) + ChildSpend(rows, budgets[j])
    {
      spent := spent + [Lookup(spentMap, budgets[b]) + Lookup(subSpentMap, budgets[b])];
    }
  }

  /** A live category as budget execution reads it. */
  datatype Live = Live(id: Id, parent: Option<Id>)

  ghost predicate OneRowEach(live: seq<Live>) {
    forall i, j :: 0 <= i < j < |live| ==> live[i].id != live[j].id
  }

  predicate IsChild(live: seq<Live>, c: Id) {
    exists row :: row in live && row.id == c && row.parent.Some?
  }

  /** Spend of the live children of c, child by child. */
  function LiveChildSpend(rows: seq<Spent>, live: seq<Live>, c: Id): int {
    if live == [] then 0
    else
      var last := live[|live| - 1];
      LiveChildSpend(rows, live[..|live| - 1], c) + (if last.parent == Some(c) then Direct(rows, last.id) else 0)
  }

  function SpendOfAll(rows: seq<Spent>, ids: seq<Id>): int {
    if ids == [] then 0 else SpendOfAll(rows, ids[..|ids| - 1]) + Direct(rows, ids[|ids| - 1])
  }

  /** computeExecution's figure for one budget line. */
  function BudgetFigure(rows: seq<Spent>, live: seq<Live>, c: Id): int {
    Direct(rows, c) + (if IsChild(live, c) then 0 else LiveChildSpend(rows, live, c))
  }

  /** Go's m[k] on a map of slices. */
  function Listed(m: map<Id, seq<Id>>, k: Id): seq<Id> {
    if k in m then m[k] else []
  }

  ghost predicate ChildrenRead(rows: seq<Spent>, live: seq<Live>, catParent: map<Id, Id>,
                               childrenOf: map<Id, seq<Id>>) {
    forall c :: ChildrenReadAt(rows, live, catParent, childrenOf, c)
  }

  ghost predicate ChildrenReadAt(rows: seq<Spent>, live: seq<Live>, catParent: map<Id, Id>,
                                 childrenOf: map<Id, seq<Id>>, c: Id) {
    && (c in catParent <==> IsChild(live, c))
    && SpendOfAll(rows, Listed(childrenOf, c)) == LiveChildSpend(rows, live, c)
  }

  lemma IsChildOneMore(live: seq<Live>, row: Live, c: Id)
    ensures IsChild(live + [row], c) <==> IsChild(live, c) || (row.id == c && row.parent.Some?)
  {
    var more := live + [row];
    assert row in more;
    if IsChild(live, c) {
      var other :| other in live && other.id == c && other.parent.Some?;
      assert other in more;
    }
  }

  lemma SpendOfOneMore(rows: seq<Spent>, ids: seq<Id>, id: Id)
    ensures SpendOfAll(rows, ids + [id]) == SpendOfAll(rows, ids) + Direct(rows, id)
  {
    assert (ids + [id])[..|ids|] == ids;
  }

  lemma LiveSpendOfOneMore(rows: seq<Spent>, live: seq<Live>, row: Live, c: Id)
    ensures LiveChildSpend(rows, live + [row], c)
            == LiveChildSpend(rows, live, c) + (if row.parent == Some(c) then Direct(rows, row.id) else 0)
  {
    assert (live + [row])[..|live|] == live;
  }

  lemma ReadOneMore(rows: seq<Spent>, live: seq<Live>, row: Live, catParent: map<Id, Id>,
                    childrenOf: map<Id, seq<Id>>, c: Id)
    requires ChildrenReadAt(rows, live, catParent, childrenOf, c)
    ensures row.parent.None? ==> ChildrenReadAt(rows, live + [row], catParent, childrenOf, c)
    ensures row.parent.Some? ==>
              var p := row.parent.value;
              ChildrenReadAt(rows, live + [row], catParent[row.id := p],
                             childrenOf[p := Listed(childrenOf, p) + [row.id]], c)
  {
    IsChildOneMore(live, row, c);
    SpendOfOneMore(rows, Listed(childrenOf, c), row.id);
    LiveSpendOfOneMore(rows, live, row, c);
    hide IsChild, SpendOfAll, LiveChildSpend, Direct;
  }

  method ReadChildren(ghost rows: seq<Spent>, live: seq<Live>)
    returns (catParent: map<Id, Id>, childrenOf: map<Id, seq<Id>>)
    ensures ChildrenRead(rows, live, catParent, childrenOf)
  {
    catParent, childrenOf := map[], map[];
    for i := 0 to |live|
      invariant ChildrenRead(rows, live[..i], catParent, childrenOf)
    {
      var row := live[i];
      ghost var seen := live[..i + 1];
      assert seen == live[..i] + [row];
      ghost var parents, children := catParent, childrenOf;
      if row.parent.Some? {
        var p := row.parent.value;
        catParent := catParent[row.id := p];
        childrenOf := childrenOf[p := Listed(childrenOf, p) + [row.id]];
      }
      hide ChildrenReadAt;
      forall c
        ensures ChildrenReadAt(rows, seen, catParent, childrenOf, c)
      {
        ReadOneMore(rows, live[..i], row, parents, children, c);
      }
    }
    assert live[..|live|] == live;
  }

  /** computeExecution: from rows without parents, and a map from parents to their live children. */
  method BudgetSpend(rows: seq<Spent>, live: seq<Live>, budgets: seq<Id>) returns (spent: seq<int>)
    requires Grouped(rows)
    ensures |spent| == |budgets|
    ensures forall b :: 0 <= b < |budgets| ==> spent[b] == BudgetFigure(rows, live, budgets[b])
  {
    var spentMap := SpentMap(rows);
    var catParent, childrenOf := ReadChildren(rows, live);
    spent := [];
    for b := 0 to |budgets|
      invariant |spent| == b
      invariant forall j :: 0 <= j < b ==> spent[j] == BudgetFigure(rows, live, budgets[j])
    {
      var c := budgets[b];
      assert ChildrenReadAt(rows, live, catParent, childrenOf, c);
      hide IsChild, LiveChildSpend, Direct;
      var figure := Lookup(spentMap, c);
      if c !in catParent {
        var ids := Listed(childrenOf, c);
        for k := 0 to |ids|
          invariant figure == Direct(rows, c) + SpendOfAll(rows, ids[..k])
        {
          assert ids[..k + 1][..k] == ids[..k];
          figure := figure + Lookup(spentMap, ids[k]);
        }
        assert ids[..|ids|] == ids;
      }
      spent := spent + [figure];
    }
  }

  // ---------------------------------------------------------------- when the roll-ups agree

  /** The two queries read one table: rows carry their category's parent, and `live` is the undeleted categories. */
  ghost predicate OneTable(cs: map<Id, Category>, rows: seq<Spent>, live: seq<Live>) {
    && Grouped(rows) && OneRowEach(live)
    && (forall row :: row in rows ==> row.category in cs && row.parent == cs[row.category].parent)
    && (forall row :: row in live ==> row.id in cs && !cs[row.id].deleted && row.parent == cs[row.id].parent)
    && (forall c :: c in cs && !cs[c].deleted ==> exists row :: row in live && row.id == c)
  }

  /** Spend of a child that the dashboard adds to c and budget execution does not. */
  predicate Missed(cs: map<Id, Category>, row: Spent, c: Id) {
    && row.parent == Some(c) && row.category in cs
    && (cs[row.category].deleted || (c in cs && !cs[c].deleted && cs[c].parent.Some?))
  }

  function MissedSpend(cs: map<Id, Category>, rows: seq<Spent>, c: Id): int {
    if rows == [] then 0
    else
      var last := rows[|rows| - 1];
      MissedSpend(cs, rows[..|rows| - 1], c) + (if Missed(cs, last, c) then last.amount else 0)
  }

  /** Spend of the live children of c, row by row. */
  function LiveRows(cs: map<Id, Category>, rows: seq<Spent>, c: Id): int {
    if rows == [] then 0
    else
      var last := rows[|rows| - 1];
      LiveRows(cs, rows[..|rows| - 1], c)
      + (if last.parent == Some(c) && last.category in cs && !cs[last.category].deleted then last.amount else 0)
  }

  /** How often `live` lists a category under c. */
  function Listings(live: seq<Live>, id: Id, c: Id): int {
    if live == [] then 0
    else
      var last := live[|live| - 1];
      Listings(live[..|live| - 1], id, c) + (if last.id == id && last.parent == Some(c) then 1 else 0)
  }

  lemma {:induction false} ChildByChild(rows: seq<Spent>, row: Spent, live: seq<Live>, c: Id)
    ensures LiveChildSpend(rows + [row], live, c)
            == LiveChildSpend(rows, live, c) + row.amount * Listings(live, row.category, c)
  {
    if live != [] {
      ChildByChild(rows, row, live[..|live| - 1], c);
      assert (rows + [row])[..|rows|] == rows;
    }
  }

  lemma {:induction false} NoChildrenNoSpend(live: seq<Live>, c: Id)
    ensures LiveChildSpend([], live, c) == 0
  {
    if live != [] {
      NoChildrenNoSpend(live[..|live| - 1], c);
    }
  }

  lemma {:induction false} ListedOnce(live: seq<Live>, id: Id, c: Id)
    requires OneRowEach(live)
    ensures Listings(live, id, c) == if exists row :: row in live && row.id == id && row.parent == Some(c) then 1 else 0
  {
    if live != [] {
      var before, last := live[..|live| - 1], live[|live| - 1];
      assert live == before + [last];
      ListedOnce(before, id, c);
      if last.id == id {
        forall row | row in before
          ensures row.id != id
        {
          var k :| 0 <= k < |before| && before[k] == row;
          assert live[k] == row;
        }
      }
    }
  }

  lemma LiveListing(cs: map<Id, Category>, rows: seq<Spent>, live: seq<Live>, row: Spent, c: Id)
    requires OneTable(cs, rows, live) && row in rows
    ensures Listings(live, row.category, c)
            == if row.parent == Some(c) && row.category in cs && !cs[row.category].deleted then 1 else 0
  {
    ListedOnce(live, row.category, c);
  }

  /** Child by child or row by row, live children's spend is the same. */
  lemma {:induction false} LiveEitherWay(cs: map<Id, Category>, rows: seq<Spent>, live: seq<Live>, c: Id)
    requires OneTable(cs, rows, live)
    ensures LiveChildSpend(rows, live, c) == LiveRows(cs, rows, c)
  {
    if rows == [] {
      NoChildrenNoSpend(live, c);
    } else {
      var before, row := rows[..|rows| - 1], rows[|rows| - 1];
      assert rows == before + [row];
      GroupedPrefix(rows, |rows| - 1);
      ChildByChild(before, row, live, c);
      LiveListing(cs, rows, live, row, c);
      LiveEitherWay(cs, before, live, c);
    }
  }

  lemma {:induction false} MissedIsTheRest(cs: map<Id, Category>, rows: seq<Spent>, c: Id)
    requires forall row :: row in rows ==> row.category in cs
    ensures ChildSpend(rows, c)
            == MissedSpend(cs, rows, c)
               + (if c in cs && !cs[c].deleted && cs[c].parent.Some? then 0 else LiveRows(cs, rows, c))
  {
    if rows != [] {
      var before, row := rows[..|rows| - 1], rows[|rows| - 1];
      MissedIsTheRest(cs, before, c);
      TotalOfOneMore(Under(before, c), row);
      assert Under(before, c) + [] == Under(before, c);
      assert row in rows;
    }
  }

  lemma IsChildInTable(cs: map<Id, Category>, rows: seq<Spent>, live: seq<Live>, c: Id)
    requires OneTable(cs, rows, live)
    ensures IsChild(live, c) <==> c in cs && !cs[c].deleted && cs[c].parent.Some?
  {}

  /** The two figures differ by exactly the spend of the missed children. */
  lemma RollUpsDiffer(cs: map<Id, Category>, rows: seq<Spent>, live: seq<Live>, c: Id)
    requires OneTable(cs, rows, live)
    ensures Direct(rows, c) + ChildSpend(rows, c) == BudgetFigure(rows, live, c) + MissedSpend(cs, rows, c)
  {
    IsChildInTable(cs, rows, live, c);
    LiveEitherWay(cs, rows, live, c);
    MissedIsTheRest(cs, rows, c);
  }

  lemma {:induction false} NoneMissed(cs: map<Id, Category>, rows: seq<Spent>, c: Id)
    requires forall row :: row in rows ==> row.amount >= 0
    ensures MissedSpend(cs, rows, c) >= 0
    ensures MissedSpend(cs, rows, c) == 0 <==> forall row :: row in rows && Missed(cs, row, c) ==> row.amount == 0
  {
    if rows != [] {
      var before, row := rows[..|rows| - 1], rows[|rows| - 1];
      assert rows == before + [row];
      NoneMissed(cs, before, c);
    }
  }

  /** With no negative spend they agree on c exactly when no child of c with spend is deleted and,
      c being itself a live child, none has spend at all. */
  lemma RollUpsAgreeExactly(cs: map<Id, Category>, rows: seq<Spent>, live: seq<Live>, c: Id)
    requires OneTable(cs, rows, live)
    requires forall row :: row in rows ==> row.amount >= 0
    ensures Direct(rows, c) + ChildSpend(rows, c) == BudgetFigure(rows, live, c)
            <==> forall row :: row in rows && row.parent == Some(c) && row.amount != 0 ==>
                   !cs[row.category].deleted && !(c in cs && !cs[c].deleted && cs[c].parent.Some?)
  {
    RollUpsDiffer(cs, rows, live, c);
    NoneMissed(cs, rows, c);
  }

  /** On a two-level forest without spend on deleted categories they always agree. */
  lemma RollUpsAgree(cs: map<Id, Category>, rows: seq<Spent>, live: seq<Live>, c: Id)
    requires OneTable(cs, rows, live)
    requires forall p, d :: p in cs && d in cs && cs[d].parent == Some(p) ==> cs[p].parent.None?
    requires forall row :: row in rows ==> !cs[row.category].deleted
    ensures Direct(rows, c) + ChildSpend(rows, c) == BudgetFigure(rows, live, c)
  {
    RollUpsDiffer(cs, rows, live, c);
    NothingMissed(cs, rows, c);
  }

  lemma {:induction false} NothingMissed(cs: map<Id, Category>, rows: seq<Spent>, c: Id)
    requires forall row :: row in rows ==> !Missed(cs, row, c)
    ensures MissedSpend(cs, rows, c) == 0
  {
    if rows != [] {
      var before := rows[..|rows| - 1];
      assert forall row :: row in before ==> row in rows;
      NothingMissed(cs, before, c);
    }
  }
}
