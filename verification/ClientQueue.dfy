/** The client's queue twice: SendQueue follows the agents that push and write, Reconnect only the
    packets and the connection. Here each is mapped onto the other, so that what Reconnect takes for
    granted about its queue (one writer, with the front in hand) is what the agents bring about. */
module ClientQueue {
  import Q = SendQueue
  import R = Reconnect
  import T = TagStrings

  type Queue = Q.State<R.Packet>
  type QueueLabel = Q.Label<R.Packet>

  /** The phase of the connection is what the one agent is doing; a packet that is in the connection
      unacknowledged is being written. */
  ghost predicate Matches(q: Queue, st: R.State) {
    && q.queue == st.queue
    && (q.agents == map[] ==> st.phase == R.Synced && !st.arrived)
    && (forall a :: a in q.agents ==> Doing(q.agents[a], st))
  }

  predicate Doing(pc: Q.Pc<R.Packet>, st: R.State) {
    match pc
    case About => st.phase == R.Synced && !st.arrived
    case Holding(_) => st.phase == R.Synced && !st.arrived
    case Writing(_) => st.phase == R.Synced
    case Failed(_) => (st.phase == R.Failed || st.phase == R.Fresh) && !st.arrived
    case Resubscribing => st.phase.Resubscribing? && !st.arrived
  }

  /** The packet that a step of the client puts into the queue. */
  function Puts(st: R.State, m: R.Label): seq<R.Packet>
    requires R.Enabled(st, m)
  {
    match m
    case SubSend(a) => [R.Sub(st.calls[a].topic, st.calls[a].body)]
    case CancelSend(a) => [R.Cancel(st.calls[a].topic, st.calls[a].body)]
    case Push(p) => [p]
    case ReTopic(topic, order) => [R.Sub(topic, T.Join(order))]
    case _ => []
  }

  /** The same event, seen by the agents and by the connection. */
  predicate Same(st: R.State, l: QueueLabel, m: R.Label)
    requires R.Enabled(st, m)
  {
    match l
    case Push(_, p) => !m.ReTopic? && Puts(st, m) == [p]
    case RePush(_, _, p) => m.ReTopic? && Puts(st, m) == [p]
    case Written(_) => m == R.Written
    case Fails(_) => m == R.Fails
    case Reconnect(_) => m == R.ReStart
    case ReDone(_) => m == R.ReEnd
    case Front(_) => false
    case Start(_) => false
  }

  /** Steps that only the connection, the map or the sessions see. A packet arrives only while it is
      being written. */
  ghost predicate Elsewhere(q: Queue, m: R.Label) {
    || m.SubStart? || m.SubTag? || m.CancelStart? || m.Cut? || m.Deal? || m.Connect?
    || (m.Arrive? && exists a :: a in q.agents && q.agents[a].Writing?)
  }

  /** Every step of the agents is a step of Reconnect, or none: taking the front and starting the write
      show nowhere; whatever else the agents may do, Reconnect may do as far as the queue has a say,
      and it leads to the same queue in the same phase. */
  lemma QueueStepMaps(q: Queue, st: R.State, l: QueueLabel, m: R.Label)
    requires Q.Inv(q) && Matches(q, st) && Q.Enabled(q, l)
    ensures l.Front? || l.Start? ==> Matches(Q.After(q, l), st)
    ensures R.Enabled(st, m) && Same(st, l, m) ==> Matches(Q.After(q, l), R.After(st, m))
    ensures l.Written? ==> (R.Enabled(st, R.Written) <==> st.arrived || !st.alive)
    ensures l.Fails? ==> R.Enabled(st, R.Fails)
    ensures l.Reconnect? ==> R.Enabled(st, R.Connect) || (R.Enabled(st, R.ReStart) <==> R.LockFree(st))
    ensures l.ReDone? ==> (R.Enabled(st, R.ReEnd) <==> st.phase.todo == {})
  {
    hide Matches;
    QueueGuards(q, st, l);
    if l.Front? || l.Start? {
      ShowsNowhere(q, st, l);
    } else if R.Enabled(st, m) && Same(st, l, m) {
      hide Q.Inv, Q.Enabled, Q.After, R.Enabled, R.After, Same;
      SameEventMaps(q, st, l, m);
    }
  }

  lemma QueueGuards(q: Queue, st: R.State, l: QueueLabel)
    requires Q.Inv(q) && Matches(q, st) && Q.Enabled(q, l)
    ensures l.Written? ==> (R.Enabled(st, R.Written) <==> st.arrived || !st.alive)
    ensures l.Fails? ==> R.Enabled(st, R.Fails)
    ensures l.Reconnect? ==> R.Enabled(st, R.Connect) || (R.Enabled(st, R.ReStart) <==> R.LockFree(st))
    ensures l.ReDone? ==> (R.Enabled(st, R.ReEnd) <==> st.phase.todo == {})
  {
    if l.Written? || l.Fails? || l.Reconnect? || l.ReDone? {
      Q.Only(q, l.a);
      assert Doing(q.agents[l.a], st);
    }
  }

  lemma ShowsNowhere(q: Queue, st: R.State, l: QueueLabel)
    requires Q.Inv(q) && Matches(q, st) && Q.Enabled(q, l) && (l.Front? || l.Start?)
    ensures Matches(Q.After(q, l), st)
  {
    Q.Only(q, l.a);
  }

  lemma SameEventMaps(q: Queue, st: R.State, l: QueueLabel, m: R.Label)
    requires Q.Inv(q) && Matches(q, st) && Q.Enabled(q, l) && R.Enabled(st, m) && Same(st, l, m)
    ensures Matches(Q.After(q, l), R.After(st, m))
  {
    hide T.Split, T.Join, R.Topics, R.TagsOf, T.Iterates, R.LockFree, R.Keys;
    if l.Push? || l.RePush? {
      PutMaps(q, st, l, m);
    } else {
      Q.Only(q, l.a);
      Q.InvStep(q, l);
    }
  }

  lemma PutMaps(q: Queue, st: R.State, l: QueueLabel, m: R.Label)
    requires Q.Inv(q) && Matches(q, st) && Q.Enabled(q, l) && R.Enabled(st, m) && Same(st, l, m)
    requires l.Push? || l.RePush?
    ensures Matches(Q.After(q, l), R.After(st, m))
  {
    hide T.Split, T.Join, R.Topics, R.TagsOf, T.Iterates, R.LockFree, R.Keys;
    if At(q, l.a) {
      Q.Only(q, l.a);
    }
  }

  predicate At(q: Queue, a: Q.Agent) {
    a in q.agents
  }

  lemma ElsewhereMaps(q: Queue, st: R.State, m: R.Label)
    requires Q.Inv(q) && Matches(q, st) && R.Enabled(st, m) && Elsewhere(q, m)
    ensures Matches(q, R.After(st, m))
  {
    hide T.Split, R.Topics, R.Dealt;
    if m.Arrive? {
      var a :| a in q.agents && q.agents[a].Writing?;
      Q.Only(q, a);
    }
  }

  // ---------------------------------------------------------------- the other way round

  /** Some run of the agents ends in this state. */
  ghost predicate Reached(q: Queue) {
    exists queues, labels :: QueueRun(queues, labels, q)
  }

  ghost predicate QueueRun(queues: seq<Queue>, labels: seq<QueueLabel>, q: Queue) {
    Q.Run(queues, labels) && queues[|labels|] == q
  }

  lemma NothingYet()
    ensures Reached(Q.Empty())
  {
    assert QueueRun([Q.Empty()], [], Q.Empty());
  }

  lemma ReachedInv(q: Queue)
    requires Reached(q)
    ensures Q.Inv(q)
  {
    hide Q.Inv;
    var queues, labels :| QueueRun(queues, labels, q);
    Q.InvAlways(queues, labels, |labels|);
  }

  lemma OneMore(q: Queue, l: QueueLabel)
    requires Reached(q) && Q.Enabled(q, l)
    ensures Reached(Q.After(q, l))
  {
    hide Q.After, Q.Enabled;
    var queues, labels :| QueueRun(queues, labels, q);
    assert QueueRun(queues + [Q.After(q, l)], labels + [l], Q.After(q, l));
  }

  /** The one agent there is while the queue holds anything. */
  lemma Someone(q: Queue) returns (a: Q.Agent)
    requires Q.Inv(q) && q.queue != []
    ensures a in q.agents && forall b :: b in q.agents ==> b == a
  {
    a :| q.agents.Keys == {a};
  }

  /** While the client is in step the one agent can have the write of the front under way. */
  lemma StartsWriting(q: Queue, st: R.State) returns (w: Queue, a: Q.Agent)
    requires Reached(q) && Matches(q, st) && st.phase == R.Synced && st.queue != []
    ensures Reached(w) && Matches(w, st) && a in w.agents && w.agents[a].Writing? && w.enqueued == q.enqueued
  {
    hide Reached;
    ReachedInv(q);
    a := Someone(q);
    w := q;
    if w.agents[a].About? {
      OneMore(w, Q.Front(a));
      w := Q.After(w, Q.Front(a));
    }
    if w.agents[a].Holding? {
      OneMore(w, Q.Start(a));
      w := Q.After(w, Q.Start(a));
    }
  }

  /** A label of the agents that is the same event as this step of the client. */
  lemma Event(q: Queue, st: R.State, m: R.Label) returns (l: QueueLabel)
    requires Q.Inv(q) && Matches(q, st) && R.Enabled(st, m)
    requires m.Written? || m.Fails? ==> exists a :: a in q.agents && q.agents[a].Writing?
    requires !Elsewhere(q, m) && !m.Arrive?
    ensures Q.Enabled(q, l) && Same(st, l, m) && Q.After(q, l).enqueued == q.enqueued + Puts(st, m)
  {
    hide T.Split, T.Join, R.Topics, R.TagsOf, T.Iterates;
    var b: nat := if 0 in q.agents then 1 else 0;
    if q.queue == [] {
      l := Q.Push(b, Puts(st, m)[0]);
    } else {
      var a := Someone(q);
      l := if m.Written? then Q.Written(a)
           else if m.Fails? then Q.Fails(a)
           else if m.ReStart? then Q.Reconnect(a)
           else if m.ReEnd? then Q.ReDone(a)
           else if m.ReTopic? then Q.RePush(a, b, Puts(st, m)[0])
           else Q.Push(b, Puts(st, m)[0]);
    }
  }

  /** Every step of the client is something the agents can do, and they put the same packet. */
  lemma ClientStepMaps(q: Queue, st: R.State, m: R.Label) returns (r: Queue)
    requires Reached(q) && Matches(q, st) && R.Enabled(st, m)
    ensures Reached(r) && Matches(r, R.After(st, m)) && r.enqueued == q.enqueued + Puts(st, m)
  {
    hide Reached, Matches, R.After, Q.After, Q.Inv, T.Split, T.Join, R.Topics, R.TagsOf, T.Iterates;
    r := q;
    if m.Arrive? || m.Written? || m.Fails? {
      var a;
      r, a := StartsWriting(q, st);
    }
    ReachedInv(r);
    if Elsewhere(r, m) {
      ElsewhereMaps(r, st, m);
    } else {
      var l := Event(r, st, m);
      QueueStepMaps(r, st, l, m);
      OneMore(r, l);
      r := Q.After(r, l);
    }
  }

  /** Everything put into the queue in the first i steps. */
  function PutBy(states: seq<R.State>, labels: seq<R.Label>, i: nat): seq<R.Packet>
    requires R.Run(states, labels) && i < |states|
  {
    if i == 0 then [] else PutBy(states, labels, i - 1) + Puts(states[i - 1], labels[i - 1])
  }

  /** The agents' side of the client's state after i steps: nothing is lost or reordered, so what was
      acknowledged and what is queued are what was put, in order. */
  ghost predicate Behind(q: Queue, states: seq<R.State>, labels: seq<R.Label>, i: nat)
    requires R.Run(states, labels) && i < |states|
  {
    && Reached(q) && Q.Inv(q) && Matches(q, states[i])
    && q.enqueued == PutBy(states, labels, i) == q.acked + states[i].queue
  }

  /** Every run of Reconnect is the outside of a run of the agents, who keep to one writer with the
      front in hand; so the queue is first in first out whatever becomes of the connections. */
  lemma {:induction false} ClientRunMaps(states: seq<R.State>, labels: seq<R.Label>, i: nat)
    requires R.Run(states, labels) && i < |states|
    ensures exists q :: Behind(q, states, labels, i)
  {
    hide Reached, Matches, R.After, R.Enabled;
    if i == 0 {
      NothingYet();
      ReachedInv(Q.Empty());
      StartMatches();
      assert Behind(Q.Empty(), states, labels, 0);
    } else {
      ClientRunMaps(states, labels, i - 1);
      var before :| Behind(before, states, labels, i - 1);
      var q := ClientStepMaps(before, states[i - 1], labels[i - 1]);
      assert states[i - 1 + 1] == states[i];
      ReachedInv(q);
      SameQueue(q, states[i]);
      assert Behind(q, states, labels, i);
    }
  }

  lemma StartMatches()
    ensures Matches(Q.Empty(), R.START)
  {
  }

  lemma SameQueue(q: Queue, st: R.State)
    requires Matches(q, st)
    ensures q.queue == st.queue
  {
  }
}
