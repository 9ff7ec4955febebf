/**
 The bookkeeping of a depth-first walk with a visited set, over any notion of
 "visiting `p` under request `r` queues `q` under request `rq`". The closure
 loop keeps these predicates invariant; each step lemma re-establishes one of
 them after an item is popped.
 */
module Walk {
  import opened Seqs

  /** Every visited node is a start visited under `unasked`, or was queued by a node visited before it. */
  ghost predicate DerivedBy<P(!new), R(!new)>(starts: set<P>, unasked: R, step: (P, R, P, R) -> bool, order: seq<P>, how: map<P, R>)
    requires Elems(order) == how.Keys
  {
    forall i :: 0 <= i < |order| ==>
      (order[i] in starts && how[order[i]] == unasked) ||
      exists j :: 0 <= j < i && step(order[j], how[order[j]], order[i], how[order[i]])
  }

  /** Every start is visited, and so is everything a visited node queues under its request. */
  ghost predicate ClosedBy<P(!new), R(!new)>(starts: set<P>, step: (P, R, P, R) -> bool, visited: set<P>, how: map<P, R>)
    requires visited == how.Keys
  {
    starts <= visited &&
    forall p, q, rq :: p in visited && step(p, how[p], q, rq) ==> q in visited
  }

  /** A queued item is a start under `unasked`, or was queued by a visited node. */
  ghost predicate QueuedBy<P(!new), R(!new)>(starts: set<P>, unasked: R, step: (P, R, P, R) -> bool, visited: set<P>, how: map<P, R>, item: (P, R))
    requires visited == how.Keys
  {
    (item.0 in starts && item.1 == unasked) ||
    exists p :: p in visited && step(p, how[p], item.0, item.1)
  }

  /** Nothing a visited node queued has been lost: it is visited or still queued. */
  ghost predicate PendingBy<P(!new), R(!new)>(step: (P, R, P, R) -> bool, visited: set<P>, how: map<P, R>, queue: seq<(P, R)>)
    requires visited == how.Keys
  {
    forall p, q, rq :: p in visited && step(p, how[p], q, rq) ==> q in visited || (q, rq) in queue
  }

  /** Every start is visited or still queued under `unasked`. */
  ghost predicate StartsPending<P(!new), R(!new)>(starts: set<P>, unasked: R, visited: set<P>, queue: seq<(P, R)>) {
    forall s :: s in starts ==> s in visited || (s, unasked) in queue
  }

  /** `pushes` is exactly what visiting `from` under `req` queues. */
  ghost predicate PushesOfBy<P(!new), R(!new)>(step: (P, R, P, R) -> bool, from: P, req: R, pushes: seq<(P, R)>) {
    (forall i :: 0 <= i < |pushes| ==> step(from, req, pushes[i].0, pushes[i].1)) &&
    (forall q, rq :: step(from, req, q, rq) ==> (q, rq) in pushes)
  }

  lemma Popped<T>(queue: seq<T>, item: T)
    requires |queue| > 0 && item == queue[|queue| - 1]
    ensures forall x :: x in queue <==> x in queue[..|queue| - 1] || x == item
  {
    assert queue == queue[..|queue| - 1] + [item];
  }

  // ---------------------------------------------------------------------------
  // Popping an item whose node is already visited

  lemma SkipQueued<P(!new), R(!new)>(starts: set<P>, unasked: R, step: (P, R, P, R) -> bool, visited: set<P>, how: map<P, R>,
                                     queue: seq<(P, R)>, queue': seq<(P, R)>)
    requires visited == how.Keys && |queue| > 0 && queue' == queue[..|queue| - 1]
    requires forall i :: 0 <= i < |queue| ==> QueuedBy(starts, unasked, step, visited, how, queue[i])
    ensures forall i :: 0 <= i < |queue'| ==> QueuedBy(starts, unasked, step, visited, how, queue'[i])
    ensures forall i :: 0 <= i < |queue'| ==> queue'[i] == queue[i]
  {
    forall i | 0 <= i < |queue'| ensures QueuedBy(starts, unasked, step, visited, how, queue'[i]) {
      assert queue'[i] == queue[i];
    }
  }

  lemma SkipPending<P(!new), R(!new)>(starts: set<P>, unasked: R, step: (P, R, P, R) -> bool, visited: set<P>, how: map<P, R>, queue: seq<(P, R)>)
    requires visited == how.Keys && |queue| > 0 && queue[|queue| - 1].0 in visited
    requires PendingBy(step, visited, how, queue)
    requires StartsPending(starts, unasked, visited, queue)
    ensures PendingBy(step, visited, how, queue[..|queue| - 1])
    ensures StartsPending(starts, unasked, visited, queue[..|queue| - 1])
  {
    Popped(queue, queue[|queue| - 1]);
  }

  // ---------------------------------------------------------------------------
  // Popping an item whose node is new: it is visited and its pushes are queued

  lemma StepDerived<P(!new), R(!new)>(starts: set<P>, unasked: R, step: (P, R, P, R) -> bool, order: seq<P>, how: map<P, R>,
                          queue: seq<(P, R)>, item: (P, R))
    requires NoDups(order) && Elems(order) == how.Keys
    requires item in queue && item.0 !in how
    requires DerivedBy(starts, unasked, step, order, how)
    requires forall i :: 0 <= i < |queue| ==> QueuedBy(starts, unasked, step, how.Keys, how, queue[i])
    ensures NoDups(order + [item.0]) && Elems(order + [item.0]) == how.Keys + {item.0}
    ensures how[item.0 := item.1].Keys == how.Keys + {item.0}
    ensures DerivedBy(starts, unasked, step, order + [item.0], how[item.0 := item.1])
  {
    var order', how' := order + [item.0], how[item.0 := item.1];
    assert Elems(order') == Elems(order) + {item.0};
    forall i | 0 <= i < |order'|
      ensures (order'[i] in starts && how'[order'[i]] == unasked) ||
        exists j :: 0 <= j < i && step(order'[j], how'[order'[j]], order'[i], how'[order'[i]])
    {
      if i < |order| {
        assert order[i] in how;
        if !(order[i] in starts && how[order[i]] == unasked) {
          var j :| 0 <= j < i && step(order[j], how[order[j]], order[i], how[order[i]]);
          assert order[j] in how;
          assert order'[j] == order[j] && how'[order[j]] == how[order[j]];
        }
      } else {
        var k :| 0 <= k < |queue| && queue[k] == item;
        assert QueuedBy(starts, unasked, step, how.Keys, how, queue[k]);
        if !(item.0 in starts && item.1 == unasked) {
          var p :| p in how && step(p, how[p], item.0, item.1);
          assert p in Elems(order);
          var j :| 0 <= j < |order| && order[j] == p;
          assert order'[j] == p && how'[p] == how[p];
        }
      }
    }
  }

  lemma StepQueued<P(!new), R(!new)>(starts: set<P>, unasked: R, step: (P, R, P, R) -> bool, how: map<P, R>,
                         queue: seq<(P, R)>, pushes: seq<(P, R)>, queue': seq<(P, R)>)
    requires |queue| > 0 && queue[|queue| - 1].0 !in how
    requires forall i :: 0 <= i < |queue| ==> QueuedBy(starts, unasked, step, how.Keys, how, queue[i])
    requires PushesOfBy(step, queue[|queue| - 1].0, queue[|queue| - 1].1, pushes)
    requires queue' == queue[..|queue| - 1] + pushes
    ensures forall i :: 0 <= i < |queue'| ==>
      QueuedBy(starts, unasked, step, how.Keys + {queue[|queue| - 1].0}, how[queue[|queue| - 1].0 := queue[|queue| - 1].1], queue'[i])
  {
    var item := queue[|queue| - 1];
    var how' := how[item.0 := item.1];
    assert how'.Keys == how.Keys + {item.0};
    forall i | 0 <= i < |queue'| ensures QueuedBy(starts, unasked, step, how'.Keys, how', queue'[i]) {
      if i < |queue| - 1 {
        assert queue'[i] == queue[i];
        assert QueuedBy(starts, unasked, step, how.Keys, how, queue[i]);
        if !(queue[i].0 in starts && queue[i].1 == unasked) {
          var p :| p in how && step(p, how[p], queue[i].0, queue[i].1);
          assert how'[p] == how[p];
        }
      } else {
        assert queue'[i] == pushes[i - (|queue| - 1)];
        assert step(item.0, how'[item.0], queue'[i].0, queue'[i].1);
      }
    }
  }

  lemma StepPending<P(!new), R(!new)>(starts: set<P>, unasked: R, step: (P, R, P, R) -> bool, how: map<P, R>,
                          queue: seq<(P, R)>, pushes: seq<(P, R)>, queue': seq<(P, R)>)
    requires |queue| > 0 && queue[|queue| - 1].0 !in how
    requires PendingBy(step, how.Keys, how, queue)
    requires StartsPending(starts, unasked, how.Keys, queue)
    requires PushesOfBy(step, queue[|queue| - 1].0, queue[|queue| - 1].1, pushes)
    requires queue' == queue[..|queue| - 1] + pushes
    ensures PendingBy(step, how.Keys + {queue[|queue| - 1].0}, how[queue[|queue| - 1].0 := queue[|queue| - 1].1], queue')
    ensures StartsPending(starts, unasked, how.Keys + {queue[|queue| - 1].0}, queue')
  {
    var item := queue[|queue| - 1];
    Popped(queue, item);
    var how' := how[item.0 := item.1];
    assert how'.Keys == how.Keys + {item.0};
    forall p, q, rq | p in how'.Keys && step(p, how'[p], q, rq) ensures q in how'.Keys || (q, rq) in queue' {
      if p != item.0 {
        assert how'[p] == how[p];
      }
    }
  }

  /** With the queue drained, the walk is closed. */
  lemma Drained<P(!new), R(!new)>(starts: set<P>, unasked: R, step: (P, R, P, R) -> bool, visited: set<P>, how: map<P, R>)
    requires visited == how.Keys
    requires PendingBy(step, visited, how, [])
    requires StartsPending(starts, unasked, visited, [])
    ensures ClosedBy(starts, step, visited, how)
  {
    var empty: seq<(P, R)> := [];
    forall p, q, rq | p in visited && step(p, how[p], q, rq) ensures q in visited {
      assert (q, rq) !in empty;
    }
  }

  /**
   Soundness: if the starts (under `unasked`) lie in a set of node/request pairs
   that `step` never leaves, every visited node was visited under a pair of it.
   */
  lemma {:induction false} DerivedWithin<P(!new), R(!new)>(starts: set<P>, unasked: R, step: (P, R, P, R) -> bool,
                                               order: seq<P>, how: map<P, R>, allowed: set<(P, R)>)
    requires Elems(order) == how.Keys
    requires DerivedBy(starts, unasked, step, order, how)
    requires forall s :: s in starts ==> (s, unasked) in allowed
    requires forall p, r, q, rq :: (p, r) in allowed && step(p, r, q, rq) ==> (q, rq) in allowed
    ensures forall i :: 0 <= i < |order| ==> (order[i], how[order[i]]) in allowed
  {
    forall i | 0 <= i < |order| ensures (order[i], how[order[i]]) in allowed {
      WithinAt(starts, unasked, step, order, how, allowed, i);
    }
  }

  lemma {:induction false} WithinAt<P(!new), R(!new)>(starts: set<P>, unasked: R, step: (P, R, P, R) -> bool,
                                          order: seq<P>, how: map<P, R>, allowed: set<(P, R)>, i: nat)
    requires Elems(order) == how.Keys && i < |order|
    requires DerivedBy(starts, unasked, step, order, how)
    requires forall s :: s in starts ==> (s, unasked) in allowed
    requires forall p, r, q, rq :: (p, r) in allowed && step(p, r, q, rq) ==> (q, rq) in allowed
    ensures (order[i], how[order[i]]) in allowed
    decreases i
  {
    assert order[i] in Elems(order);
    if !(order[i] in starts && how[order[i]] == unasked) {
      var j :| 0 <= j < i && step(order[j], how[order[j]], order[i], how[order[i]]);
      WithinAt(starts, unasked, step, order, how, allowed, j);
    }
  }
}
