/** The stacking-order part of PlasmaWindowManagement as a class. */
module StackingOrders {
  import opened StackingOrderStates

  class StackingOrder {
    var stackingOrderUuids: seq<Uuid>
    var data: map<ObjectId, seq<Uuid>>   // the list of each StackingOrderData that exists
    ghost var changes: nat               // how often stackingOrderUuidsChanged was emitted
    ghost var history: seq<Event>

    ghost function State(): State
      reads this
    {
      StackingOrderStates.State(stackingOrderUuids, data, changes)
    }

    ghost predicate Valid()
      reads this
    {
      State() == Run(history)
    }

    constructor ()
      ensures Valid() && history == []
    {
      stackingOrderUuids, data, changes, history := [], map[], 0, [];
    }

    ghost method Record(e: Event)
      requires State() == Step(Run(history), e)
      modifies this`history
      ensures Valid() && history == old(history) + [e]
    {
      assert (history + [e])[..|history|] == history;
      history := history + [e];
    }

    // Private::setStackingOrder
    method SetStackingOrder(uuids: seq<Uuid>)
      modifies this`stackingOrderUuids, this`changes
      ensures State() == Publish(old(State()), uuids)
    {
      if stackingOrderUuids == uuids {
        return;
      }
      stackingOrderUuids := uuids;
      changes := changes + 1;
    }

    // stackingOrder2Callback: a new object that nothing was collected for
    method StackingOrder2(o: ObjectId)
      requires Valid()
      modifies this
      ensures Valid() && history == old(history) + [Started(o)]
    {
      data := data[o := []];
      Record(Started(o));
    }

    // stackingOrderWindow
    method StackingOrderWindow(o: ObjectId, uuid: Uuid)
      requires Valid() && o in data
      modifies this
      ensures Valid() && history == old(history) + [Window(o, uuid)]
    {
      data := data[o := data[o] + [uuid]];
      Record(Window(o, uuid));
    }

    // stackingOrderDone
    method StackingOrderDone(o: ObjectId)
      requires Valid() && o in data
      modifies this
      ensures Valid() && history == old(history) + [Done(o)]
      ensures IsListOf(stackingOrderUuids, history, |old(history)|)
    {
      var list := data[o];
      data := data - {o};
      SetStackingOrder(list);
      Record(Done(o));
      CollectingIs(old(history), o);
      assert history[..|old(history)|] == old(history);
      PublishedNow(history);
    }

    // stackingOrderUuidsCallback
    method StackingOrderUuids(joined: string)
      requires Valid()
      modifies this
      ensures Valid() && history == old(history) + [Uuids(joined)]
    {
      SetStackingOrder(Split(joined));
      Record(Uuids(joined));
    }
  }
}
