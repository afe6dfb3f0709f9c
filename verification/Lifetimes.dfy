/** How far an order created NEW can be brought (server.cpp): when it can be delivered, and the
    state in which its text is longest. */
module Lifetimes {
  import opened Model
  import opened Messages
  import opened Orders
  import opened Accounting

  // ---------------------------------------------------------------------------------
  // Delivery
  // ---------------------------------------------------------------------------------

  lemma ExecuteSnoc(cmds: seq<Command>, cmd: Command)
    ensures ExecuteAll(cmds + [cmd]) == Execute(ExecuteAll(cmds), cmd)
  {
    assert (cmds + [cmd])[..|cmds|] == cmds;
  }

  lemma StoredWasHandedOut(cmds: seq<Command>, k: int)
    ensures var s := ExecuteAll(cmds);
            k in s.orders ==> s.orders[k].id == k && FIRST_ORDER_ID <= k < s.nextOrderId
  {
    RunKeepsInv(cmds, k);
    IdsAreKeys(cmds, k);
  }

  /** The item is the one that its id finds. */
  predicate Found(items: seq<Item>, i: nat)
    requires i < |items|
  {
    FindItem(items, items[i].id) == i
  }

  lemma DistinctFound(items: seq<Item>, i: nat)
    requires DistinctIds(items) && i < |items|
    ensures Found(items, i)
  {
    FindItemUnique(items, items[i].id, i);
  }

  /** The item is done, or updates can still bring it there. */
  predicate CanBeDone(items: seq<Item>, i: nat)
    requires i < |items|
  {
    || items[i].status == ItemStatus.DONE
    || (Found(items, i) && (items[i].status == ItemStatus.NEW || items[i].status == ItemStatus.IN_PROGRESS))
  }

  predicate AllCanBeDone(items: seq<Item>) {
    forall i :: 0 <= i < |items| ==> CanBeDone(items, i)
  }

  /** The order is done, or it will be when the items still missing are. */
  predicate Deliverable(o: Order) {
    || o.status == OrderStatus.DONE
    || ((o.status == OrderStatus.NEW || o.status == OrderStatus.IN_PROGRESS)
        && !AllDone(o.items) && AllCanBeDone(o.items))
  }

  // What an accepted item update makes of an order.

  function Updated(o: Order, itemId: int, s: ItemStatus): Order {
    var moved := SetItemStatus(o, itemId, s);
    moved.(status := NextOrderStatus(o.status, s, moved.items))
  }

  predicate Accepted(o: Order, itemId: int, s: ItemStatus) {
    FindItem(o.items, itemId) >= 0 && LegalItemStep(o.items[FindItem(o.items, itemId)].status, s)
  }

  lemma ExecuteEntry(s: Server, cmd: Command, k: int)
    requires k in s.orders && k < s.nextOrderId
    ensures var s' := Execute(s, cmd); var o := s.orders[k];
            if cmd.UpdateOrder? && cmd.orderId == k && cmd.orderStatus == OrderStatus.DELIVERED
               && o.status == OrderStatus.DONE then k !in s'.orders
            else
              && k in s'.orders
              && s'.orders[k] == if cmd.UpdateItem? && cmd.orderId == k && Accepted(o, cmd.itemId, cmd.itemStatus)
                                 then Updated(o, cmd.itemId, cmd.itemStatus) else o
  {
    hide FindItem, SetItemStatus, NextOrderStatus;
  }

  lemma UpdatedItems(o: Order, itemId: int, s: ItemStatus)
    requires Accepted(o, itemId, s)
    ensures var f := FindItem(o.items, itemId); var o' := Updated(o, itemId, s);
            && o' == Order(o.id, NextOrderStatus(o.status, s, o'.items), o.items[f := o.items[f].(status := s)])
            && Found(o.items, f)
            && forall i :: 0 <= i < |o.items| ==> Found(o'.items, i) == Found(o.items, i)
  {
    var f, o' := FindItem(o.items, itemId), Updated(o, itemId, s);
    FindItemFirst(o.items, itemId);
    FindItemUnique(o.items, o.items[f].id, f);
    forall i | 0 <= i < |o.items|
      ensures Found(o'.items, i) == Found(o.items, i)
    {
      FindItemById(o'.items, o.items, o.items[i].id);
    }
  }

  /** An update leaves an order deliverable exactly if it was so before. */
  lemma UpdateKeepsDeliverable(o: Order, itemId: int, s: ItemStatus)
    requires Accepted(o, itemId, s)
    ensures Deliverable(Updated(o, itemId, s)) <==> Deliverable(o)
  {
    var f, o' := FindItem(o.items, itemId), Updated(o, itemId, s);
    UpdatedItems(o, itemId, s);
    hide FindItem, SetItemStatus, Found;
    forall i | 0 <= i < |o.items|
      ensures CanBeDone(o'.items, i) <==> CanBeDone(o.items, i)
    {
    }
    assert !AllDone(o.items);
    assert AllCanBeDone(o'.items) <==> AllCanBeDone(o.items);
    if AllDone(o'.items) {
      forall i | 0 <= i < |o.items|
        ensures CanBeDone(o.items, i)
      {
        assert o'.items[i].status == ItemStatus.DONE;
      }
    }
    hide AllDone, AllCanBeDone, CanBeDone;
  }

  /** An order that cannot be delivered stays so, whatever operations follow. */
  lemma {:induction false} StaysStuck(cmds: seq<Command>, more: seq<Command>, k: int)
    requires k in ExecuteAll(cmds).orders && !Deliverable(ExecuteAll(cmds).orders[k])
    ensures k in ExecuteAll(cmds + more).orders && !Deliverable(ExecuteAll(cmds + more).orders[k])
  {
    hide ExecuteAll, Execute, Accepted, Updated;
    if more == [] {
      assert cmds + more == cmds;
    } else {
      var front, cmd := more[..|more| - 1], more[|more| - 1];
      assert cmds + more == (cmds + front) + [cmd];
      StaysStuck(cmds, front, k);
      var s := ExecuteAll(cmds + front);
      ExecuteSnoc(cmds + front, cmd);
      StoredWasHandedOut(cmds + front, k);
      ExecuteEntry(s, cmd, k);
      if cmd.UpdateItem? && Accepted(s.orders[k], cmd.itemId, cmd.itemStatus) {
        UpdateKeepsDeliverable(s.orders[k], cmd.itemId, cmd.itemStatus);
      }
      hide Deliverable;
    }
  }

  /** While an item is not done, some update is accepted. */
  lemma NextUpdate(s: Server, k: int, i: nat) returns (cmd: Command)
    requires k in s.orders && k < s.nextOrderId && i < |s.orders[k].items|
    requires CanBeDone(s.orders[k].items, i) && s.orders[k].items[i].status != ItemStatus.DONE
    requires Deliverable(s.orders[k])
    ensures cmd.UpdateItem? && cmd.orderId == k && Outcome(s, cmd).Success?
    ensures k in Execute(s, cmd).orders && Deliverable(Execute(s, cmd).orders[k])
  {
    var item := s.orders[k].items[i];
    cmd := UpdateItem(k, item.id, if item.status == ItemStatus.NEW then ItemStatus.IN_PROGRESS else ItemStatus.DONE);
    assert Accepted(s.orders[k], cmd.itemId, cmd.itemStatus);
    UpdateKeepsDeliverable(s.orders[k], cmd.itemId, cmd.itemStatus);
    ExecuteEntry(s, cmd, k);
    hide Updated, Deliverable, SetItemStatus, NextOrderStatus;
  }

  lemma DeliveryRemoves(s: Server, k: int)
    requires k in s.orders && s.orders[k].status == OrderStatus.DONE
    ensures k !in Execute(s, UpdateOrder(k, OrderStatus.DELIVERED)).orders
  {
  }

  lemma {:induction false} CanBeDelivered(cmds: seq<Command>, k: int) returns (more: seq<Command>)
    requires k in ExecuteAll(cmds).orders && Deliverable(ExecuteAll(cmds).orders[k])
    ensures k !in ExecuteAll(cmds + more).orders
    decreases StepsLeft(ExecuteAll(cmds).orders[k])
  {
    hide Execute, ExecuteAll, Outcome, Progress, CanBeDone;
    var s := ExecuteAll(cmds);
    var o := s.orders[k];
    StoredWasHandedOut(cmds, k);
    if o.status == OrderStatus.DONE {
      more := [UpdateOrder(k, OrderStatus.DELIVERED)];
      ExecuteSnoc(cmds, more[0]);
      DeliveryRemoves(s, k);
    } else {
      var i :| 0 <= i < |o.items| && o.items[i].status != ItemStatus.DONE;
      var cmd := NextUpdate(s, k, i);
      hide Deliverable;
      ExecuteSnoc(cmds, cmd);
      StepsLeftDecreases(cmds, cmd, k);
      ProgressBounds(ExecuteAll(cmds + [cmd]).orders[k].items);
      var rest := CanBeDelivered(cmds + [cmd], k);
      more := [cmd] + rest;
      assert cmds + [cmd] + rest == cmds + more;
    }
  }

  /** Exactly when a stored order, whatever statuses it was created with, can be brought to
      delivery by some operations. */
  lemma DeliverableExact(cmds: seq<Command>, k: int)
    requires k in ExecuteAll(cmds).orders
    ensures (exists more :: k !in ExecuteAll(cmds + more).orders) <==> Deliverable(ExecuteAll(cmds).orders[k])
  {
    hide ExecuteAll, Deliverable;
    if Deliverable(ExecuteAll(cmds).orders[k]) {
      var more := CanBeDelivered(cmds, k);
      assert k !in ExecuteAll(cmds + more).orders;
    } else {
      forall more
        ensures k in ExecuteAll(cmds + more).orders
      {
        StaysStuck(cmds, more, k);
      }
    }
  }

  /** An order as new is deliverable exactly if it has items and their ids are distinct. */
  lemma NewDeliverable(o: Order)
    requires BornNew(o)
    ensures Deliverable(o) <==> o.items != [] && DistinctIds(o.items)
  {
    if o.items != [] && DistinctIds(o.items) {
      assert o.items[0].status == ItemStatus.NEW;
      forall i | 0 <= i < |o.items|
        ensures CanBeDone(o.items, i)
      {
        DistinctFound(o.items, i);
      }
    } else if Deliverable(o) {
      forall i, j | 0 <= i < j < |o.items|
        ensures o.items[i].id != o.items[j].id
      {
        assert CanBeDone(o.items, j) && o.items[j].status == ItemStatus.NEW;
        FindItemFirst(o.items, o.items[j].id);
      }
    }
  }

  // ---------------------------------------------------------------------------------
  // All new items in progress
  // ---------------------------------------------------------------------------------

  /** An update can take the item from NEW to IN_PROGRESS, which takes more characters. */
  predicate Grows(items: seq<Item>, i: nat)
    requires i < |items|
  {
    Found(items, i) && items[i].status == ItemStatus.NEW
  }

  /** How many of the first n items can grow. */
  function Growers(items: seq<Item>, n: nat): nat
    requires n <= |items|
  {
    if n == 0 then 0 else Growers(items, n - 1) + if Grows(items, n - 1) then 1 else 0
  }

  /** An order after an update to IN_PROGRESS for each of its first j items. */
  function Stage(o: Order, j: nat): Order
    requires j <= |o.items|
  {
    Order(o.id, if o.status == OrderStatus.NEW && Growers(o.items, j) > 0 then OrderStatus.IN_PROGRESS else o.status,
          seq(|o.items|, i requires 0 <= i < |o.items| =>
            if i < j && Grows(o.items, i) then o.items[i].(status := ItemStatus.IN_PROGRESS) else o.items[i]))
  }

  function StartUpdates(k: int, items: seq<Item>): seq<Command> {
    seq(|items|, i requires 0 <= i < |items| => UpdateItem(k, items[i].id, ItemStatus.IN_PROGRESS))
  }

  lemma StageLookup(o: Order, j: nat, itemId: int)
    requires j <= |o.items|
    ensures FindItem(Stage(o, j).items, itemId) == FindItem(o.items, itemId)
  {
    FindItemById(Stage(o, j).items, o.items, itemId);
  }

  lemma StageStart(o: Order)
    ensures Stage(o, 0) == o
  {
    assert Stage(o, 0).items == o.items;
  }

  /** The update of an item that grows is accepted. */
  lemma StageAccepted(o: Order, j: nat)
    requires j < |o.items| && Grows(o.items, j)
    ensures Accepted(Stage(o, j), o.items[j].id, ItemStatus.IN_PROGRESS)
    ensures Updated(Stage(o, j), o.items[j].id, ItemStatus.IN_PROGRESS) == Stage(o, j + 1)
  {
    var before, moved := Stage(o, j), SetItemStatus(Stage(o, j), o.items[j].id, ItemStatus.IN_PROGRESS);
    StageLookup(o, j, o.items[j].id);
    hide FindItem;
    assert before.items[j].status == ItemStatus.NEW;
    assert moved.items[j].status == ItemStatus.IN_PROGRESS;
    assert moved.items == Stage(o, j + 1).items;
    assert !AllDone(moved.items);
  }

  /** The update of any other item is refused. */
  lemma StageRefused(o: Order, j: nat)
    requires j < |o.items| && !Grows(o.items, j)
    ensures !Accepted(Stage(o, j), o.items[j].id, ItemStatus.IN_PROGRESS)
    ensures Stage(o, j + 1) == Stage(o, j)
  {
    var f := FindItem(o.items, o.items[j].id);
    FindItemFirst(o.items, o.items[j].id);
    StageLookup(o, j, o.items[j].id);
    FindItemUnique(o.items, o.items[f].id, f);
    hide FindItem;
    assert 0 <= f <= j && Found(o.items, f);
    assert Stage(o, j).items[f].status != ItemStatus.NEW;
    assert Stage(o, j + 1).items == Stage(o, j).items;
  }

  /** Updating every item once brings an order to the state with all it can in progress. */
  lemma {:induction false} ReachesStage(cmds: seq<Command>, k: int, o: Order, j: nat)
    requires j <= |o.items| && k in ExecuteAll(cmds).orders && ExecuteAll(cmds).orders[k] == o
    ensures var s := ExecuteAll(cmds + StartUpdates(k, o.items)[..j]);
            k in s.orders && s.orders[k] == Stage(o, j)
  {
    hide ExecuteAll, Execute, Stage, Grows, Accepted, Updated;
    var all := StartUpdates(k, o.items);
    if j == 0 {
      assert cmds + all[..0] == cmds;
      StageStart(o);
    } else {
      ReachesStage(cmds, k, o, j - 1);
      assert cmds + all[..j] == (cmds + all[..j - 1]) + [all[j - 1]];
      ExecuteSnoc(cmds + all[..j - 1], all[j - 1]);
      StoredWasHandedOut(cmds + all[..j - 1], k);
      ExecuteEntry(ExecuteAll(cmds + all[..j - 1]), all[j - 1], k);
      if Grows(o.items, j - 1) {
        StageAccepted(o, j - 1);
      } else {
        StageRefused(o, j - 1);
      }
    }
  }

  lemma GoneStays(s: Server, cmd: Command, k: int)
    requires k < s.nextOrderId
    ensures k < Execute(s, cmd).nextOrderId
    ensures k !in s.orders ==> k !in Execute(s, cmd).orders
  {
  }
}
