/** Merging one category into another: the parent relation and the money
    (server/internal/sync/service.go, applyCategoryMergeOp; server/internal/transaction/service.go, MergeCategories). */
module CategoryForest {
  import opened LedgerTables
  import opened MapSum
  import opened Wrappers

  type Categories = map<Id, Category>

  /** The k-th ancestor; the category itself for k = 0. */
  function Up(cs: Categories, c: Id, k: nat): Option<Id> {
    if k == 0 then Some(c)
    else
      var below := Up(cs, c, k - 1);
      if below.Some? && below.value in cs then cs[below.value].parent else None
  }

  ghost predicate Acyclic(cs: Categories) {
    forall c, k: nat :: c in cs && k > 0 ==> Up(cs, c, k) != Some(c)
  }

  /** A live child of the source: what the merge hangs under the target. */
  predicate Moves(cs: Categories, source: Id, c: Id) {
    c in cs && cs[c].parent == Some(source) && !cs[c].deleted
  }

  /** Neither the target nor any of its ancestors is about to move. */
  ghost predicate Clear(cs: Categories, source: Id, target: Id) {
    forall k: nat :: Up(cs, target, k).Some? ==> !Moves(cs, source, Up(cs, target, k).value)
  }

  lemma {:induction false} UpAdds(cs: Categories, c: Id, i: nat, j: nat)
    ensures Up(cs, c, i + j) == var x := Up(cs, c, i); if x.Some? then Up(cs, x.value, j) else None
  {
    if j > 0 {
      UpAdds(cs, c, i, j - 1);
    }
  }

  lemma ParentAfter(t: Tables, source: Id, target: Id, c: Id)
    requires source in t.categories
    ensures Merged(t, source, target).categories.Keys == t.categories.Keys
    ensures c in t.categories ==>
              Merged(t, source, target).categories[c].parent
              == if Moves(t.categories, source, c) then Some(target) else t.categories[c].parent
  {}

  /** A path that meets no moving category is the same before and after. */
  lemma {:induction false} SamePath(t: Tables, source: Id, target: Id, c: Id, k: nat)
    requires source in t.categories
    requires forall j: nat :: j < k && Up(t.categories, c, j).Some? ==>
               !Moves(t.categories, source, Up(t.categories, c, j).value)
    ensures Up(Merged(t, source, target).categories, c, k) == Up(t.categories, c, k)
  {
    hide Merged;
    if k > 0 {
      SamePath(t, source, target, c, k - 1);
      var below := Up(t.categories, c, k - 1);
      if below.Some? {
        ParentAfter(t, source, target, below.value);
      }
    }
  }

  /** A path after the merge either is the old path or steps through the target. */
  lemma {:induction false} FirstMove(t: Tables, source: Id, target: Id, c: Id, k: nat) returns (j: nat)
    requires source in t.categories
    ensures j <= k
    ensures j == k ==> Up(Merged(t, source, target).categories, c, k) == Up(t.categories, c, k)
    ensures j < k ==>
              var x := Up(Merged(t, source, target).categories, c, j);
              x.Some? && Moves(t.categories, source, x.value)
              && Up(Merged(t, source, target).categories, c, j + 1) == Some(target)
  {
    hide Merged, Moves;
    j := 0;
    while j < k
      invariant j <= k && Up(Merged(t, source, target).categories, c, j) == Up(t.categories, c, j)
    {
      var x := Up(t.categories, c, j);
      ParentAfter(t, source, target, if x.Some? then x.value else c);
      if x.Some? && Moves(t.categories, source, x.value) {
        MovesIsRow(t.categories, source, x.value);
        return;
      }
      j := j + 1;
    }
  }

  lemma MovesIsRow(cs: Categories, source: Id, c: Id)
    requires Moves(cs, source, c)
    ensures c in cs
  {}

  lemma ClearStaysAcyclic(t: Tables, source: Id, target: Id, c: Id, k: nat)
    requires source in t.categories && Acyclic(t.categories) && Clear(t.categories, source, target)
    requires c in t.categories && k > 0
    ensures Up(Merged(t, source, target).categories, c, k) != Some(c)
  {
    var after := Merged(t, source, target).categories;
    hide Merged, Moves;
    if Up(after, c, k) == Some(c) {
      var j := FirstMove(t, source, target, c, k);
      if j < k {
        UpAdds(after, c, j + 1, k - j - 1);
        UpAdds(after, target, k - j - 1, j);
        SamePath(t, source, target, target, k - 1);
      }
    }
  }

  lemma {:induction false} NotClearMakesCycle(t: Tables, source: Id, target: Id, k: nat)
    requires source in t.categories && target in t.categories
    requires Up(t.categories, target, k).Some? && Moves(t.categories, source, Up(t.categories, target, k).value)
    ensures !Acyclic(Merged(t, source, target).categories)
  {
    var after := Merged(t, source, target).categories;
    ParentAfter(t, source, target, target);
    var j := FirstMove(t, source, target, target, k);
    hide Merged;
    if j == k {
      ParentAfter(t, source, target, Up(t.categories, target, k).value);
      assert Up(after, target, k + 1) == Some(target);
    } else {
      assert Up(after, target, j + 1) == Some(target);
    }
  }

  /** The merge keeps the parent relation acyclic if and only if no live child of the source
      is the target or one of its ancestors; the code does not check. */
  lemma MergeAcyclicExactly(t: Tables, source: Id, target: Id)
    requires source in t.categories && target in t.categories && Acyclic(t.categories)
    ensures Acyclic(Merged(t, source, target).categories) <==> Clear(t.categories, source, target)
  {
    ParentAfter(t, source, target, source);
    if Clear(t.categories, source, target) {
      forall c, k: nat | c in Merged(t, source, target).categories && k > 0
        ensures Up(Merged(t, source, target).categories, c, k) != Some(c)
      {
        ClearStaysAcyclic(t, source, target, c, k);
      }
    } else {
      var k: nat :| Up(t.categories, target, k).Some? && Moves(t.categories, source, Up(t.categories, target, k).value);
      NotClearMakesCycle(t, source, target, k);
    }
  }

  /** In particular a category merged into its own live child becomes its own parent. */
  lemma MergeIntoChild(t: Tables, source: Id, target: Id)
    requires source in t.categories && Moves(t.categories, source, target)
    ensures Merged(t, source, target).categories[target].parent == Some(target)
  {
    ParentAfter(t, source, target, target);
  }

  /** Two levels at most: no parent has a parent. */
  ghost predicate TwoLevels(cs: Categories) {
    forall c :: c in cs && cs[c].parent.Some? && cs[c].parent.value in cs ==> cs[cs[c].parent.value].parent.None?
  }

  lemma {:induction false} TwoLevelsUp(cs: Categories, c: Id, k: nat)
    requires TwoLevels(cs) && c in cs && k > 0
    ensures Up(cs, c, k) == if k == 1 then cs[c].parent else None
  {
    if k > 1 {
      TwoLevelsUp(cs, c, k - 1);
    }
  }

  lemma TwoLevelsAcyclic(cs: Categories)
    requires TwoLevels(cs)
    ensures Acyclic(cs)
  {
    forall c, k: nat | c in cs && k > 0
      ensures Up(cs, c, k) != Some(c)
    {
      TwoLevelsUp(cs, c, k);
    }
  }

  /** Food and its subcategory lunch: the request to merge food into lunch is accepted and closes a cycle. */
  lemma MergeCanCloseCycle()
    ensures var t := Tables(map[], map[], [], map["food" := Category(None, false, false),
                                                  "lunch" := Category(Some("food"), false, false)]);
            && WellFormed(t) && Acyclic(t.categories)
            && var merged := CategoryMerge(t, Given("food"), Given("lunch"), true, true);
               merged.Some? && !Acyclic(merged.value.categories)
  {
    var t := Tables(map[], map[], [], map["food" := Category(None, false, false),
                                          "lunch" := Category(Some("food"), false, false)]);
    TwoLevelsAcyclic(t.categories);
    MergeIntoChild(t, "food", "lunch");
    var after := Merged(t, "food", "lunch").categories;
    hide Merged;
    assert Up(after, "lunch", 0) == Some("lunch");
    assert Up(after, "lunch", 1) == Some("lunch");
  }

  // ---------------------------------------------------------------- creating categories

  /** Only one category's parent differs. */
  ghost predicate Rehung(cs: Categories, after: Categories, id: Id, parent: Id) {
    && id in after && after[id].parent == Some(parent)
    && forall c :: c != id ==> (c in after <==> c in cs) && (c in cs ==> after[c].parent == cs[c].parent)
  }

  /** A path is the old one until it comes to the category that was hung elsewhere. */
  lemma FirstVisit(cs: Categories, after: Categories, id: Id, parent: Id, c: Id, k: nat) returns (j: nat)
    requires Rehung(cs, after, id, parent)
    ensures j <= k && Up(after, c, j) == Up(cs, c, j)
    ensures j < k ==> Up(after, c, j) == Some(id)
  {
    j := 0;
    while j < k && Up(cs, c, j) != Some(id)
      invariant j <= k && Up(after, c, j) == Up(cs, c, j)
    {
      j := j + 1;
    }
  }

  lemma NoNewCycle(cs: Categories, after: Categories, id: Id, parent: Id, c: Id, k: nat)
    requires Acyclic(cs) && Rehung(cs, after, id, parent) && c in after && k > 0
    requires forall j: nat :: Up(cs, parent, j) != Some(id)
    ensures Up(after, c, k) != Some(c)
  {
    if Up(after, c, k) == Some(c) {
      var j := FirstVisit(cs, after, id, parent, c, k);
      if j < k {
        UpAdds(after, c, j + 1, k - j - 1);
        UpAdds(after, parent, k - j - 1, j);
        var i := FirstVisit(cs, after, id, parent, parent, k - 1);
      } else if c == id {
        var i := FirstVisit(cs, after, id, parent, parent, k - 1);
        UpAdds(after, c, 1, k - 1);
      }
    }
  }

  /** A sync create may name any category as parent, for a new category or an old one. It keeps the relation
      acyclic if and only if the category is not the parent itself or one of its ancestors; the code does not check. */
  lemma CreateAcyclicExactly(t: Tables, id: Id, nameOk: bool, typeOk: bool, parent: Id)
    requires Acyclic(t.categories) && CategoryCreate(t, id, nameOk, typeOk, Given(parent)).Some?
    ensures Acyclic(CategoryCreate(t, id, nameOk, typeOk, Given(parent)).value.categories)
            <==> forall k: nat :: Up(t.categories, parent, k) != Some(id)
  {
    var cs, after := t.categories, CategoryCreate(t, id, nameOk, typeOk, Given(parent)).value.categories;
    assert Rehung(cs, after, id, parent);
    hide CategoryCreate;
    if k: nat :| Up(cs, parent, k) == Some(id) {
      var j := FirstVisit(cs, after, id, parent, parent, k);
      assert Up(after, id, 0) == Some(id) && Up(after, id, 1) == Some(parent);
      UpAdds(after, id, 1, j);
    } else {
      forall c, k: nat | c in after && k > 0
        ensures Up(after, c, k) != Some(c)
      {
        NoNewCycle(cs, after, id, parent, c, k);
      }
    }
  }

  /** Food and its subcategory lunch: pushing food again with lunch as its parent closes a cycle. */
  lemma CreateCanCloseCycle()
    ensures var t := Tables(map[], map[], [], map["food" := Category(None, false, false),
                                                  "lunch" := Category(Some("food"), false, false)]);
            && WellFormed(t) && Acyclic(t.categories)
            && var created := CategoryCreate(t, "food", true, true, Given("lunch"));
               created.Some? && !Acyclic(created.value.categories)
  {
    var t := Tables(map[], map[], [], map["food" := Category(None, false, false),
                                          "lunch" := Category(Some("food"), false, false)]);
    TwoLevelsAcyclic(t.categories);
    TwoLevelsUp(t.categories, "lunch", 1);
    CreateAcyclicExactly(t, "food", true, true, "lunch");
  }

  // ---------------------------------------------------------------- money

  function SpendOn(category: Id): Txn -> int {
    (row: Txn) => if row.category == category && !row.deleted && !row.income then row.amountCny else 0
  }

  ghost function Spend(t: Tables, category: Id): int {
    Sum(t.txns, SpendOn(category))
  }

  /** The source ends with no live child, no live transaction and no spend; its spend is added to the target's
      and no other; balances do not move; and doing it again does nothing. */
  lemma MergeMoney(t: Tables, source: Id, target: Id, sourceAllowed: bool, targetAllowed: bool)
    requires source != target && LiveCategory(t, source)
    requires CategoryMerge(t, Given(source), Given(target), sourceAllowed, targetAllowed).Some?
    requires !t.categories[source].preset
    ensures var after := CategoryMerge(t, Given(source), Given(target), sourceAllowed, targetAllowed).value;
            && after.accounts == t.accounts && after.transfers == t.transfers
            && (forall c :: c in after.categories && !after.categories[c].deleted ==>
                  after.categories[c].parent != Some(source))
            && (forall id :: LiveTxn(after, id) ==> after.txns[id].category != source)
            && Spend(after, source) == 0
            && Spend(after, target) == Spend(t, target) + Spend(t, source)
            && (forall other :: other != source && other != target ==> Spend(after, other) == Spend(t, other))
            && !LiveCategory(after, source)
            && CategoryMerge(after, Given(source), Given(target), sourceAllowed, targetAllowed) == Some(after)
  {
    var after := Merged(t, source, target);
    SumSplit(after.txns, t.txns, SpendOn(target), SpendOn(target), SpendOn(source));
    NoSpend(after.txns, source);
    forall other | other != source && other != target
      ensures Spend(after, other) == Spend(t, other)
    {
      SumSame(after.txns, t.txns, SpendOn(other), SpendOn(other));
    }
  }

  lemma {:induction false} NoSpend(txns: map<Id, Txn>, category: Id)
    requires forall id :: id in txns && !txns[id].deleted ==> txns[id].category != category
    ensures Sum(txns, SpendOn(category)) == 0
    decreases |txns|
  {
    if txns.Keys == {} {
      assert txns == map[];
    } else {
      var id :| id in txns.Keys;
      SumWithout(txns, SpendOn(category), id);
      NoSpend(txns - {id}, category);
    }
  }

  // ---------------------------------------------------------------- the RPC form

  /** MergeCategories repoints the caller's transactions only. */
  function RpcMerged(t: Tables, user: Id, source: Id, target: Id): Tables
    requires source in t.categories
  {
    Merged(t, source, target).(txns := map id | id in t.txns ::
      if t.txns[id].category == source && t.txns[id].owner == user && !t.txns[id].deleted
      then t.txns[id].(category := target) else t.txns[id])
  }

  /** So it clears the source of live transactions exactly when all of them were the caller's. */
  lemma RpcMergeClears(t: Tables, user: Id, source: Id, target: Id)
    requires source in t.categories && source != target
    ensures (forall id :: LiveTxn(RpcMerged(t, user, source, target), id) ==>
               RpcMerged(t, user, source, target).txns[id].category != source)
            <==> (forall id :: LiveTxn(t, id) && t.txns[id].category == source ==> t.txns[id].owner == user)
  {
    var after := RpcMerged(t, user, source, target);
    forall id | id in t.txns
      ensures id in after.txns && after.txns[id].deleted == t.txns[id].deleted
      ensures !t.txns[id].deleted ==>
                (after.txns[id].category == source <==> t.txns[id].category == source && t.txns[id].owner != user)
    {}
  }

  // ---------------------------------------------------------------- budgets

  /** A row of category_budgets. */
  datatype Share = Share(budget: Id, category: Id, amount: int)

  /** UNIQUE (budget_id, category_id) */
  ghost predicate UniqueShares(rows: seq<Share>) {
    forall i, j :: 0 <= i < j < |rows| ==> rows[i].budget != rows[j].budget || rows[i].category != rows[j].category
  }

  predicate Budgeted(rows: seq<Share>, budget: Id, category: Id) {
    exists i :: 0 <= i < |rows| && rows[i].budget == budget && rows[i].category == category
  }

  /** UPDATE ... SET category_id = target WHERE category_id = source AND budget_id NOT IN (budgets of the target) */
  function Remapped(rows: seq<Share>, source: Id, target: Id): (after: seq<Share>)
    ensures |after| == |rows|
  {
    seq(|rows|, i requires 0 <= i < |rows| =>
      if rows[i].category == source && !Budgeted(rows, rows[i].budget, target)
      then rows[i].(category := target) else rows[i])
  }

  /** DELETE ... WHERE category_id = source */
  function Without(rows: seq<Share>, source: Id): seq<Share> {
    if rows == [] then []
    else Without(rows[..|rows| - 1], source)
         + (if rows[|rows| - 1].category == source then [] else [rows[|rows| - 1]])
  }

  lemma {:induction false} WithoutKeeps(rows: seq<Share>, source: Id)
    ensures forall row :: row in Without(rows, source) <==> row in rows && row.category != source
    ensures UniqueShares(rows) ==> UniqueShares(Without(rows, source))
  {
    if rows != [] {
      var before, last := rows[..|rows| - 1], rows[|rows| - 1];
      WithoutKeeps(before, source);
      assert rows == before + [last];
      var kept := Without(before, source);
      forall i | 0 <= i < |kept| && UniqueShares(rows)
        ensures kept[i].budget != last.budget || kept[i].category != last.category
      {
        assert kept[i] in before;
      }
    }
  }

  lemma RemappedUnique(rows: seq<Share>, source: Id, target: Id)
    requires UniqueShares(rows)
    ensures UniqueShares(Remapped(rows, source, target))
  {}

  lemma RemappedHolds(rows: seq<Share>, source: Id, target: Id, row: Share)
    requires source != target
    ensures row in Remapped(rows, source, target) && row.category != source <==>
              row.category != source
              && (row in rows || (row.category == target && row.(category := source) in rows
                                  && !Budgeted(rows, row.budget, target)))
  {
    var after := Remapped(rows, source, target);
    if row in after && row.category != source {
      var i :| 0 <= i < |after| && after[i] == row;
      assert rows[i] in rows;
      assert row == rows[i] || rows[i] == row.(category := source);
    }
    if row.category != source && row in rows {
      var i :| 0 <= i < |rows| && rows[i] == row;
      assert after[i] == row;
    }
    if row.category == target && row.(category := source) in rows && !Budgeted(rows, row.budget, target) {
      var i :| 0 <= i < |rows| && rows[i] == row.(category := source);
      assert after[i] == row;
    }
  }

  /** After the pair of statements no row is on the source, no pair repeats, the target keeps its own amount
      where it had one and takes the source's where it had none, and nothing else changes. */
  lemma BudgetsMerged(rows: seq<Share>, source: Id, target: Id)
    requires UniqueShares(rows) && source != target
    ensures var after := Without(Remapped(rows, source, target), source);
            && UniqueShares(after)
            && forall row :: row in after <==>
                 row.category != source
                 && (row in rows
                     || (row.category == target && row.(category := source) in rows
                         && !Budgeted(rows, row.budget, target)))
  {
    var remapped := Remapped(rows, source, target);
    RemappedUnique(rows, source, target);
    WithoutKeeps(remapped, source);
    hide Remapped, Without, UniqueShares, Budgeted;
    forall row
      ensures row in Without(remapped, source) <==>
                row.category != source
                && (row in rows
                    || (row.category == target && row.(category := source) in rows
                        && !Budgeted(rows, row.budget, target)))
    {
      RemappedHolds(rows, source, target, row);
    }
  }
}
