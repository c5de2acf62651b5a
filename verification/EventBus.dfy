/** The in-process fan-out: bounded queues that drop their oldest event when full. */
module EventBus {
  import opened Wrappers

  const MAX_QUEUE := 128

  /** Delivered is an event by its number of emission; Marker ends a stream. */
  datatype Item = Delivered(event: nat) | Marker

  datatype Queue = Queue(execution: string, items: seq<Item>)

  /** put_nowait, or get_nowait and put_nowait when full. */
  function Offer(items: seq<Item>, x: Item): seq<Item> {
    if |items| < MAX_QUEUE then items + [x] else items[1..] + [x]
  }

  /** items are the last |items| of the given events, in order. */
  ghost predicate IsSuffix(items: seq<Item>, events: seq<nat>) {
    |items| <= |events| && forall k :: 0 <= k < |items| ==> items[k] == Delivered(events[|events| - |items| + k])
  }

  /** A queue with room loses nothing, a full one exactly its oldest item; x is always taken in. */
  lemma OfferLosesOldest(items: seq<Item>, x: Item)
    requires |items| <= 128
    ensures var r := Offer(items, x);
            && 0 < |r| <= 128 && r[|r| - 1] == x
            && (|items| < 128 ==> r[..|r| - 1] == items)
            && (|items| == 128 ==> [items[0]] + r[..|r| - 1] == items)
  {
    if |items| == 128 {
      assert [items[0]] + items[1..] == items;
      assert Offer(items, x)[..127] == items[1..];
    }
  }

  /**
   * Offering the next event keeps a suffix a suffix, one longer until it has 128; the newest event is
   * never the one dropped.
   */
  lemma OfferKeepsSuffix(items: seq<Item>, events: seq<nat>, e: nat)
    requires IsSuffix(items, events) && |items| <= 128
    ensures var r := Offer(items, Delivered(e));
            && IsSuffix(r, events + [e]) && r != [] && r[|r| - 1] == Delivered(e)
            && |r| == if |items| < 128 then |items| + 1 else 128
  {
  }

  class Bus {
    var queues: seq<Queue>
    /** For every queue, the events emitted to its execution since it subscribed. */
    ghost var emitted: seq<seq<nat>>
    ghost var closed: set<string>

    ghost predicate Valid()
      reads this
    {
      && |emitted| == |queues|
      && (forall i :: 0 <= i < |queues| ==> |queues[i].items| <= 128)
      && (forall i :: 0 <= i < |queues| && queues[i].execution !in closed ==> IsSuffix(queues[i].items, emitted[i]))
    }

    constructor ()
      ensures Valid() && queues == [] && closed == {}
    {
      queues, emitted, closed := [], [], {};
    }

    method Subscribe(execution: string) returns (q: nat)
      requires Valid()
      modifies this
      ensures Valid() && closed == old(closed)
      ensures q == |old(queues)| && queues == old(queues) + [Queue(execution, [])] && emitted == old(emitted) + [[]]
    {
      q := |queues|;
      queues := queues + [Queue(execution, [])];
      emitted := emitted + [[]];
    }

    method Unsubscribe(q: nat)
      requires Valid() && q < |queues|
      modifies this
      ensures Valid() && closed == old(closed)
      ensures queues == old(queues)[..q] + old(queues)[q + 1..] && emitted == old(emitted)[..q] + old(emitted)[q + 1..]
    {
      queues, emitted := queues[..q] + queues[q + 1..], emitted[..q] + emitted[q + 1..];
    }

    /** Offers the event to every queue of its execution and to no other. */
    method Emit(execution: string, e: nat)
      requires Valid()
      modifies this
      ensures Valid() && closed == old(closed) && |queues| == |old(queues)|
      ensures forall i :: 0 <= i < |queues| && queues[i].execution == execution ==>
                queues[i] == old(queues)[i].(items := Offer(old(queues)[i].items, Delivered(e)))
                    && emitted[i] == old(emitted)[i] + [e]
      ensures forall i :: 0 <= i < |queues| && queues[i].execution != execution ==>
                queues[i] == old(queues)[i] && emitted[i] == old(emitted)[i]
    {
      ghost var before, sent := queues, emitted;
      for k := 0 to |queues|
        invariant |queues| == |before| && |emitted| == |sent| && closed == old(closed)
        invariant forall i :: 0 <= i < |queues| ==> queues[i].execution == before[i].execution
        invariant forall i :: 0 <= i < k && before[i].execution == execution ==>
                    queues[i] == before[i].(items := Offer(before[i].items, Delivered(e)))
                        && emitted[i] == sent[i] + [e]
        invariant forall i :: 0 <= i < |queues| && (k <= i || before[i].execution != execution) ==>
                    queues[i] == before[i] && emitted[i] == sent[i]
      {
        if queues[k].execution == execution {
          queues := queues[k := queues[k].(items := Offer(queues[k].items, Delivered(e)))];
          emitted := emitted[k := emitted[k] + [e]];
        }
      }
      forall i | 0 <= i < |queues| ensures |queues[i].items| <= 128
        && (queues[i].execution !in closed ==> IsSuffix(queues[i].items, emitted[i]))
      {
        if queues[i].execution == execution && execution !in closed {
          OfferKeepsSuffix(before[i].items, sent[i], e);
        }
      }
    }

    /** The subscriber takes its oldest item. */
    method Consume(q: nat) returns (x: Option<Item>)
      requires Valid() && q < |queues|
      modifies this`queues
      ensures Valid() && |queues| == |old(queues)|
      ensures x.None? <==> old(queues)[q].items == []
      ensures x.None? ==> queues == old(queues)
      ensures x.Some? ==>
                old(queues)[q].items == [x.value] + queues[q].items && queues[q].execution == old(queues)[q].execution
      ensures forall i :: 0 <= i < |queues| && i != q ==> queues[i] == old(queues)[i]
    {
      var items := queues[q].items;
      if items == [] {
        return None;
      }
      queues := queues[q := queues[q].(items := items[1..])];
      return Some(items[0]);
    }

    /** Every queue of the execution now ends with the marker, within bounds. */
    method Close(execution: string)
      requires Valid()
      modifies this
      ensures Valid() && closed == old(closed) + {execution} && emitted == old(emitted) && |queues| == |old(queues)|
      ensures forall i :: 0 <= i < |queues| && queues[i].execution == execution ==>
                && queues[i] == old(queues)[i].(items := Offer(old(queues)[i].items, Marker))
                && queues[i].items[|queues[i].items| - 1] == Marker
      ensures forall i :: 0 <= i < |queues| && queues[i].execution != execution ==> queues[i] == old(queues)[i]
    {
      ghost var before := queues;
      for k := 0 to |queues|
        invariant |queues| == |before| && emitted == old(emitted) && closed == old(closed)
        invariant forall i :: 0 <= i < |queues| ==> queues[i].execution == before[i].execution
        invariant forall i :: 0 <= i < k && before[i].execution == execution ==>
                    queues[i] == before[i].(items := Offer(before[i].items, Marker))
        invariant forall i :: 0 <= i < |queues| && (k <= i || before[i].execution != execution) ==>
                  queues[i] == before[i]
      {
        if queues[k].execution == execution {
          queues := queues[k := queues[k].(items := Offer(queues[k].items, Marker))];
        }
      }
      closed := closed + {execution};
    }
  }
}
