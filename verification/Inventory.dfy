/** Stock on hand, read from grouped movement sums. Quantities are in hundredths of a unit. */
module Inventory {
  import opened Wrappers
  import Numbers

  type Id = string

  datatype Kind = In | Out | Transfer | Adjustment | Allocation | Return

  datatype Movement = Movement(item: Id, kind: Kind, quantity: int)

  /** One row of the grouped query: the sum of one item's movements of one kind. */
  datatype Group = Group(item: Id, kind: Kind, sum: int)

  function Signed(kind: Kind, quantity: int): int {
    if kind == Out || kind == Allocation then -quantity else quantity
  }

  /** The direct ledger: every movement of the item, signed, one by one. */
  function Balance(ms: seq<Movement>, item: Id): int {
    if |ms| == 0 then 0
    else
      var m := ms[|ms| - 1];
      Balance(ms[..|ms| - 1], item) + if m.item == item then Signed(m.kind, m.quantity) else 0
  }

  function KindSum(ms: seq<Movement>, item: Id, kind: Kind): int {
    if |ms| == 0 then 0
    else
      var m := ms[|ms| - 1];
      KindSum(ms[..|ms| - 1], item, kind) + if m.item == item && m.kind == kind then m.quantity else 0
  }

  /** The grouped query's answer, in any order: one group for each item and kind that has a
      movement, holding its sum. */
  ghost predicate Groups(gs: seq<Group>, ms: seq<Movement>, items: set<Id>) {
    && (forall g :: g in gs ==> g.item in items && g.sum == KindSum(ms, g.item, g.kind))
    && (forall i, j :: 0 <= i < j < |gs| ==> !(gs[i].item == gs[j].item && gs[i].kind == gs[j].kind))
    && (forall m :: m in ms && m.item in items ==> exists g :: g in gs && g.item == m.item && g.kind == m.kind)
  }

  function GroupTotal(gs: seq<Group>, item: Id): int {
    if |gs| == 0 then 0
    else
      var g := gs[|gs| - 1];
      GroupTotal(gs[..|gs| - 1], item) + if g.item == item then Signed(g.kind, g.sum) else 0
  }

  // ---------------------------------------------------------------- grouped equals direct

  /** Signing the six sums of an item gives its direct ledger. */
  lemma {:induction false} BalanceByKind(ms: seq<Movement>, item: Id)
    ensures Balance(ms, item) ==
            KindSum(ms, item, In) - KindSum(ms, item, Out) + KindSum(ms, item, Transfer)
            + KindSum(ms, item, Adjustment) - KindSum(ms, item, Allocation) + KindSum(ms, item, Return)
  {
    if |ms| > 0 {
      BalanceByKind(ms[..|ms| - 1], item);
    }
  }

  /** The sum the groups give for one item and kind. */
  function Part(gs: seq<Group>, item: Id, kind: Kind): int {
    if |gs| == 0 then 0
    else
      var g := gs[|gs| - 1];
      Part(gs[..|gs| - 1], item, kind) + if g.item == item && g.kind == kind then g.sum else 0
  }

  lemma {:induction false} GroupTotalByKind(gs: seq<Group>, item: Id)
    ensures GroupTotal(gs, item) ==
            Part(gs, item, In) - Part(gs, item, Out) + Part(gs, item, Transfer)
            + Part(gs, item, Adjustment) - Part(gs, item, Allocation) + Part(gs, item, Return)
  {
    if |gs| > 0 {
      GroupTotalByKind(gs[..|gs| - 1], item);
    }
  }

  ghost predicate OfKind(g: Group, item: Id, kind: Kind) {
    g.item == item && g.kind == kind
  }

  lemma {:induction false} NoGroupNoPart(gs: seq<Group>, item: Id, kind: Kind)
    requires forall j :: 0 <= j < |gs| ==> !OfKind(gs[j], item, kind)
    ensures Part(gs, item, kind) == 0
  {
    if |gs| > 0 {
      NoGroupNoPart(gs[..|gs| - 1], item, kind);
    }
  }

  lemma {:induction false} OneGroupIsPart(gs: seq<Group>, i: nat, item: Id, kind: Kind)
    requires i < |gs| && forall j :: 0 <= j < |gs| ==> (OfKind(gs[j], item, kind) <==> j == i)
    ensures Part(gs, item, kind) == gs[i].sum
  {
    if i < |gs| - 1 {
      OneGroupIsPart(gs[..|gs| - 1], i, item, kind);
    } else {
      NoGroupNoPart(gs[..|gs| - 1], item, kind);
    }
  }

  lemma {:induction false} NoMovementsNoSum(ms: seq<Movement>, item: Id, kind: Kind)
    requires forall m :: m in ms ==> !(m.item == item && m.kind == kind)
    ensures KindSum(ms, item, kind) == 0
  {
    if |ms| > 0 {
      NoMovementsNoSum(ms[..|ms| - 1], item, kind);
      assert ms[|ms| - 1] in ms;
    }
  }

  lemma PartIsKindSum(gs: seq<Group>, ms: seq<Movement>, items: set<Id>, item: Id, kind: Kind)
    requires Groups(gs, ms, items) && item in items
    ensures Part(gs, item, kind) == KindSum(ms, item, kind)
  {
    if i :| 0 <= i < |gs| && OfKind(gs[i], item, kind) {
      OneGroupIsPart(gs, i, item, kind);
    } else {
      NoGroupNoPart(gs, item, kind);
      NoMovementsNoSum(ms, item, kind);
    }
  }

  /** For every movement history, summing by group and then signing is the direct ledger,
      whatever order the groups come in and whichever other items are asked for with it. */
  lemma GroupedIsDirect(gs: seq<Group>, ms: seq<Movement>, items: set<Id>, item: Id)
    requires Groups(gs, ms, items) && item in items
    ensures GroupTotal(gs, item) == Balance(ms, item)
  {
    GroupTotalByKind(gs, item);
    BalanceByKind(ms, item);
    PartIsKindSum(gs, ms, items, item, In);
    PartIsKindSum(gs, ms, items, item, Out);
    PartIsKindSum(gs, ms, items, item, Transfer);
    PartIsKindSum(gs, ms, items, item, Adjustment);
    PartIsKindSum(gs, ms, items, item, Allocation);
    PartIsKindSum(gs, ms, items, item, Return);
  }

  // ---------------------------------------------------------------- the service

  class Stockroom {
    var items: set<Id>
    var movements: seq<Movement>

    constructor ()
      ensures items == {} && movements == [] && OfKnownItems()
    {
      items, movements := {}, [];
    }

    /** What the foreign key of movements guarantees; every method keeps it. */
    ghost predicate OfKnownItems()
      reads this
    {
      forall m :: m in movements ==> m.item in items
    }

    /** Quantities of every item, accumulated group by group in a map. */
    method ListItems(gs: seq<Group>) returns (onHand: map<Id, int>)
      requires Groups(gs, movements, items)
      ensures onHand.Keys == items
      ensures forall i :: i in items ==> onHand[i] == Numbers.Max(0, Balance(movements, i))
    {
      var byItem: map<Id, int> := map[];
      for n := 0 to |gs|
        invariant forall i :: (if i in byItem then byItem[i] else 0) == GroupTotal(gs[..n], i)
      {
        assert gs[..n + 1][..n] == gs[..n];
        var g := gs[n];
        var signed := if g.kind == Out || g.kind == Allocation then -g.sum else g.sum;
        byItem := byItem[g.item := (if g.item in byItem then byItem[g.item] else 0) + signed];
      }
      assert gs[..|gs|] == gs;
      onHand := map i | i in items :: Numbers.Max(0, if i in byItem then byItem[i] else 0);
      forall i | i in items
        ensures onHand[i] == Numbers.Max(0, Balance(movements, i))
      {
        GroupedIsDirect(gs, movements, items, i);
      }
    }

    /** One item's quantity, accumulated in a variable. */
    method ItemDetail(item: Id, gs: seq<Group>) returns (onHand: Option<int>)
      requires Groups(gs, movements, {item})
      ensures onHand == if item in items then Some(Numbers.Max(0, Balance(movements, item))) else None
    {
      if item !in items {
        return None;
      }
      var total := 0;
      for n := 0 to |gs|
        invariant total == GroupTotal(gs[..n], item)
      {
        assert gs[..n + 1][..n] == gs[..n];
        assert gs[n] in gs;
        total := total + if gs[n].kind == Out || gs[n].kind == Allocation then -gs[n].sum else gs[n].sum;
      }
      assert gs[..|gs|] == gs;
      GroupedIsDirect(gs, movements, {item}, item);
      return Some(Numbers.Max(0, total));
    }

    /** A new item starts with one movement for its initial stock, if there is any; the quantity
        reported is what the next read of either kind returns. */
    method CreateItem(item: Id, quantity: Option<int>) returns (reported: int)
      requires item !in items && OfKnownItems()
      modifies this
      ensures items == old(items) + {item} && old(movements) <= movements
      ensures OfKnownItems()
      ensures reported == Numbers.Max(0, quantity.GetOr(0)) && reported == Numbers.Max(0, Balance(movements, item))
      ensures forall i :: i != item ==> Balance(movements, i) == Balance(old(movements), i)
    {
      reported := Numbers.Max(0, quantity.GetOr(0));
      NothingYet(movements, item);
      items := items + {item};
      if reported > 0 {
        movements := movements + [Movement(item, In, reported)];
      }
    }

    /** A movement of an item that does not exist is refused. */
    method RecordMovement(m: Movement) returns (ok: bool)
      modifies `movements
      ensures ok <==> m.item in items
      ensures movements == if ok then old(movements) + [m] else old(movements)
      ensures forall i :: Balance(movements, i) ==
                Balance(old(movements), i) + if ok && i == m.item then Signed(m.kind, m.quantity) else 0
      ensures old(OfKnownItems()) ==> OfKnownItems()
    {
      if m.item !in items {
        return false;
      }
      movements := movements + [m];
      return true;
    }

  }

  lemma {:induction false} NothingYet(ms: seq<Movement>, item: Id)
    requires forall m :: m in ms ==> m.item != item
    ensures Balance(ms, item) == 0
  {
    if |ms| > 0 {
      NothingYet(ms[..|ms| - 1], item);
      assert ms[|ms| - 1] in ms;
    }
  }
}
