/** Numbering states in the order a worklist discovers them. */
module StateNumbering {
  /** Work found is queued in the order it is numbered. */
  ghost predicate Queued<K>(queue: seq<K>, order: seq<K>, queue': seq<K>, order': seq<K>) {
    order <= order' && queue' == queue + order'[|order|..]
  }

  lemma QueuedTrans<K>(q: seq<K>, o: seq<K>, q1: seq<K>, o1: seq<K>, q2: seq<K>, o2: seq<K>)
    requires Queued(q, o, q1, o1) && Queued(q1, o1, q2, o2)
    ensures Queued(q, o, q2, o2)
  {
    assert o2[|o|..] == o1[|o|..] + o2[|o1|..];
  }

  /** Working on the head of what is queued. */
  lemma QueueAdvances<K>(queue: seq<K>, order: seq<K>, k: nat, queue': seq<K>, order': seq<K>)
    requires k < |order| && queue == order[k..] && Queued(queue[1..], order, queue', order')
    ensures k + 1 <= |order'| && queue' == order'[k + 1..]
  {
    assert order'[k + 1..] == order[k + 1..] + order'[|order|..];
  }

  /** The state table and the list of keys in discovery order are inverse. */
  ghost predicate Numbered<K>(states: map<K, nat>, order: seq<K>) {
    && (forall i :: 0 <= i < |order| ==> order[i] in states && states[order[i]] == i)
    && (forall key :: key in states ==> states[key] < |order| && order[states[key]] == key)
  }

  lemma {:induction false} NumberedSize<K>(states: map<K, nat>, order: seq<K>)
    requires Numbered(states, order)
    ensures |states| == |order|
    decreases |order|
  {
    if order == [] {
      assert states == map[] by {
        forall key | key in states
          ensures false
        {
        }
      }
    } else {
      var n := |order| - 1;
      var last := order[n];
      var states' := states - {last};
      assert states == states'[last := n];
      NumberedSize(states', order[..n]);
    }
  }
}
