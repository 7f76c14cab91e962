/** The hand-rolled single-writer queue that the client (send_queue_) and every session
    (send_queue_, pub_send_queue_) use: any number of threads push; whoever pushes onto an empty
    queue starts the writer; the writer takes the front, writes it, pops it when the write has
    succeeded and goes on while there is more. When a write fails the front stays, and on the
    client a later reconnect carries on from there. One label per mutex-protected region or
    completion event. */
module SendQueue {
  type Agent = nat

  /** What an agent that is not just pushing is doing. */
  datatype Pc<P> =
    | About                  // out of the push region or the completion, on its way into send()
    | Holding(p: P)     // has read the front, has not started the write
    | Writing(p: P)
    | Failed(p: P)      // the write failed; waits for a reconnect, perhaps for ever
    | Resubscribing          // reconnected, inside re_subscribe

  datatype State<P> = State(queue: seq<P>, agents: map<Agent, Pc<P>>, enqueued: seq<P>, acked: seq<P>)

  datatype Label<P> =
    | Push(a: Agent, p: P) | Front(a: Agent) | Start(a: Agent) | Written(a: Agent) | Fails(a: Agent)
    | Reconnect(a: Agent) | RePush(a: Agent, b: Agent, p: P) | ReDone(a: Agent)

  predicate At<P(==)>(st: State<P>, a: Agent) {
    a in st.agents
  }

  /** The labels the code can take. Reading or popping an empty deque is not one of them. */
  predicate Enabled<P(==)>(st: State<P>, l: Label<P>) {
    match l
    case Push(a, p) => !At(st, a)
    case Front(a) => At(st, a) && st.agents[a] == About && st.queue != []
    case Start(a) => At(st, a) && st.agents[a].Holding?
    case Written(a) => At(st, a) && st.agents[a].Writing? && st.queue != []
    case Fails(a) => At(st, a) && st.agents[a].Writing?
    case Reconnect(a) => At(st, a) && st.agents[a].Failed?
    case RePush(a, b, p) => At(st, a) && st.agents[a] == Resubscribing && !At(st, b)
    case ReDone(a) => At(st, a) && st.agents[a] == Resubscribing
  }

  /** write(): push under the lock; the one who finds the queue empty goes on to send(). */
  function Pushed<P(==)>(st: State<P>, a: Agent, p: P): State<P> {
    State(st.queue + [p], if st.queue == [] then st.agents[a := About] else st.agents, st.enqueued + [p], st.acked)
  }

  function After<P(==)>(st: State<P>, l: Label<P>): State<P>
    requires Enabled(st, l)
  {
    match l
    case Push(a, p) => Pushed(st, a, p)
    case Front(a) => st.(agents := st.agents[a := Holding(st.queue[0])])
    case Start(a) => st.(agents := st.agents[a := Writing(st.agents[a].p)])
    case Written(a) =>
      State(st.queue[1..], if |st.queue| > 1 then st.agents[a := About] else st.agents - {a},
            st.enqueued, st.acked + [st.queue[0]])
    case Fails(a) => st.(agents := st.agents[a := Failed(st.agents[a].p)])
    case Reconnect(a) => st.(agents := st.agents[a := Resubscribing])
    case RePush(a, b, p) => Pushed(st, b, p)
    case ReDone(a) => st.(agents := st.agents[a := About])
  }

  function Empty<P>(): State<P> {
    State([], map[], [], [])
  }

  predicate InHand<P>(pc: Pc<P>) {
    pc.Holding? || pc.Writing? || pc.Failed?
  }

  predicate FrontInHand<P(==)>(st: State<P>, pc: Pc<P>) {
    InHand(pc) ==> st.queue != [] && pc.p == st.queue[0]
  }

  /** One agent exactly while the queue is not empty, with the front in hand, and first in first
      out. */
  ghost predicate Inv<P>(st: State<P>) {
    && st.acked + st.queue == st.enqueued
    && (st.queue == [] ==> st.agents == map[])
    && (st.queue != [] ==> exists a :: st.agents.Keys == {a})
    && (forall a :: a in st.agents ==> FrontInHand(st, st.agents[a]))
  }

  lemma Only<P>(st: State<P>, a: Agent)
    requires Inv(st) && a in st.agents
    ensures st.agents.Keys == {a} && st.queue != []
  {
  }

  lemma InvStep<P>(st: State<P>, l: Label<P>)
    requires Inv(st) && Enabled(st, l)
    ensures Inv(After(st, l))
  {
    var st' := After(st, l);
    match l
    case Push(a, p) =>
      assert st.acked + (st.queue + [p]) == (st.acked + st.queue) + [p];
      if st.queue == [] {
        assert st'.agents.Keys == {a};
      }
    case RePush(a, b, p) =>
      Only(st, a);
      assert st.acked + (st.queue + [p]) == (st.acked + st.queue) + [p];
    case Written(a) =>
      Only(st, a);
      assert st.queue == [st.queue[0]] + st.queue[1..];
      assert (st.acked + [st.queue[0]]) + st.queue[1..] == st.acked + st.queue;
      assert st.agents - {a} == map[];
      assert st'.queue != [] ==> st'.agents.Keys == {a};
    case _ =>
      Only(st, l.a);
      assert st'.agents.Keys == {l.a};
  }

  ghost predicate Run<P>(states: seq<State<P>>, labels: seq<Label<P>>) {
    && |states| == |labels| + 1 && states[0] == Empty()
    && forall i :: 0 <= i < |labels| ==> Enabled(states[i], labels[i]) && states[i + 1] == After(states[i], labels[i])
  }

  lemma {:induction false} InvAlways<P>(states: seq<State<P>>, labels: seq<Label<P>>, i: nat)
    requires Run(states, labels) && i < |states|
    ensures Inv(states[i])
  {
    if i == 0 {
    } else {
      InvAlways(states, labels, i - 1);
      InvStep(states[i - 1], labels[i - 1]);
      assert states[i - 1 + 1] == states[i];
    }
  }

  /** Single writer. In every state of every run, with any number of producers: the agents about to
      send, sending or holding a failed front number one if the queue holds anything and none if it
      does not; the packet in hand is the front; and what was acknowledged followed by what is
      queued is what was pushed, in order. */
  lemma SingleWriter<P>(states: seq<State<P>>, labels: seq<Label<P>>, i: nat)
    requires Run(states, labels) && i < |states|
    ensures var st := states[i];
            && |st.agents| == (if st.queue == [] then 0 else 1)
            && (forall a :: a in st.agents && InHand(st.agents[a]) ==>
                  st.queue != [] && st.agents[a].p == st.queue[0])
            && st.acked + st.queue == st.enqueued
  {
    InvAlways(states, labels, i);
    var st := states[i];
    assert forall a :: a in st.agents ==> FrontInHand(st, st.agents[a]);
    if st.queue != [] {
      var a :| st.agents.Keys == {a};
      assert |st.agents.Keys| == 1;
    }
  }

  /** Two writes are never under way together, and send() never looks at an empty queue: whoever is
      about to send, or has a write come back, finds the queue filled. */
  lemma NeverEmptyHanded<P>(states: seq<State<P>>, labels: seq<Label<P>>, i: nat, a: Agent)
    requires Run(states, labels) && i < |states| && a in states[i].agents
    ensures states[i].queue != []
    ensures states[i].agents[a] == About ==> Enabled(states[i], Front(a))
    ensures states[i].agents[a].Writing? ==> Enabled(states[i], Written(a))
    ensures forall b :: b in states[i].agents ==> b == a
  {
    InvAlways(states, labels, i);
    Only(states[i], a);
  }

  // ---------------------------------------------------------------- nobody stays stuck

  /** These labels can be taken one after another and lead from st to end. */
  ghost predicate Leads<P>(st: State<P>, labels: seq<Label<P>>, end: State<P>)
    decreases |labels|
  {
    if labels == [] then end == st
    else Enabled(st, labels[0]) && Leads(After(st, labels[0]), labels[1..], end)
  }

  lemma LeadsOn<P>(st: State<P>, l: Label<P>, labels: seq<Label<P>>, end: State<P>)
    requires Enabled(st, l) && Leads(After(st, l), labels, end)
    ensures Leads(st, [l] + labels, end)
  {
    assert ([l] + labels)[1..] == labels;
  }

  /** What the one agent does next when nothing goes wrong. */
  function NextOf<P>(a: Agent, pc: Pc<P>): Label<P> {
    match pc
    case About => Front(a)
    case Holding(_) => Start(a)
    case Writing(_) => Written(a)
    case Failed(_) => Reconnect(a)
    case Resubscribing => ReDone(a)
  }

  function StepsLeft<P>(pc: Pc<P>): nat {
    match pc
    case About => 2
    case Holding(_) => 1
    case Writing(_) => 0
    case Failed(_) => 4
    case Resubscribing => 3
  }

  /** From any state of the protocol the one agent can, on its own, write out everything queued, in
      order and each packet once, if no further write fails; afterwards nobody is under way and the
      next push starts a new writer. */
  lemma {:induction false} CanDrain<P>(st: State<P>)
    requires Inv(st)
    ensures exists labels :: Leads(st, labels, State([], map[], st.enqueued, st.acked + st.queue))
                             && forall l: Label<P> :: l in labels ==> !l.Push? && !l.RePush? && !l.Fails?
    decreases |st.queue|, if st.queue == [] then 0 else StepsLeft(st.agents[TheAgent(st)])
  {
    var end := State([], map[], st.enqueued, st.acked + st.queue);
    if st.queue == [] {
      assert Leads(st, [], end);
    } else {
      var a := TheAgent(st);
      assert FrontInHand(st, st.agents[a]);
      var l := NextOf(a, st.agents[a]);
      var st' := After(st, l);
      InvStep(st, l);
      assert st'.acked + st'.queue == st.acked + st.queue by { assert st.queue == [st.queue[0]] + st.queue[1..]; }
      if st'.queue != [] {
        assert TheAgent(st') == a;
      }
      CanDrain(st');
      var labels: seq<Label<P>> :| Leads(st', labels, State([], map[], st'.enqueued, st'.acked + st'.queue))
                    && forall k: Label<P> :: k in labels ==> !k.Push? && !k.RePush? && !k.Fails?;
      LeadsOn(st, l, labels, end);
      assert forall k :: k in [l] + labels ==> k == l || k in labels;
    }
  }

  ghost function TheAgent<P>(st: State<P>): (a: Agent)
    requires Inv(st) && st.queue != []
    ensures st.agents.Keys == {a}
  {
    var a :| st.agents.Keys == {a};
    a
  }

  // ---------------------------------------------------------------- re_subscribe

  /** Everything re_subscribe writes for the topics; `b` is the send() that a write onto an empty
      queue would start. */
  function RePushAll<P(==)>(st: State<P>, b: Agent, ps: seq<P>): State<P>
    decreases |ps|
  {
    if ps == [] then st else RePushAll(Pushed(st, b, ps[0]), b, ps[1..])
  }

  /** The whole of re_subscribe, ending in its own send(). */
  function Resubscribed<P(==)>(st: State<P>, a: Agent, b: Agent, ps: seq<P>): State<P> {
    var r := RePushAll(st.(agents := st.agents[a := Resubscribing]), b, ps);
    r.(agents := r.agents[a := About])
  }

  lemma {:induction false} RePushKeeps<P>(st: State<P>, b: Agent, ps: seq<P>)
    ensures var r := RePushAll(st, b, ps);
            && st.agents.Keys <= r.agents.Keys
            && r.queue == st.queue + ps && r.enqueued == st.enqueued + ps && r.acked == st.acked
            && (st.queue != [] ==> r.agents == st.agents)
            && (st.queue == [] && ps != [] ==> b in r.agents)
    decreases |ps|
  {
    if ps == [] {
      assert st.queue + ps == st.queue && st.enqueued + ps == st.enqueued;
    } else {
      var t := Pushed(st, b, ps[0]);
      RePushKeeps(t, b, ps[1..]);
      assert ps == [ps[0]] + ps[1..];
      assert (st.queue + [ps[0]]) + ps[1..] == st.queue + ps;
      assert (st.enqueued + [ps[0]]) + ps[1..] == st.enqueued + ps;
    }
  }

  /** re_subscribe keeps the protocol exactly when its caller holds the failed front. Called at any
      other moment, by someone who does not, it either looks at an empty queue or starts a second
      writer. */
  lemma ResubscribeIsSafe<P>(st: State<P>, a: Agent, b: Agent, ps: seq<P>)
    requires Inv(st) && a != b && b !in st.agents
    requires a in st.agents ==> st.agents[a].Failed?
    ensures Inv(Resubscribed(st, a, b, ps)) <==> a in st.agents
  {
    var s := st.(agents := st.agents[a := Resubscribing]);
    var r := Resubscribed(st, a, b, ps);
    RePushKeeps(s, b, ps);
    assert a in r.agents;
    if a in st.agents {
      Only(st, a);
      assert r.agents.Keys == {a};
      assert (st.acked + st.queue) + ps == st.acked + (st.queue + ps);
    } else if st.queue != [] {
      var c :| st.agents.Keys == {c};
      assert c in r.agents && c != a;
    } else if ps != [] {
      assert b in r.agents && a in r.agents;
    } else {
      assert r.queue == [] && a in r.agents;
    }
  }

  // ---------------------------------------------------------------- uninterrupted calls

  /** A write() call with nobody in between: `a` goes on to send and starts the write if the queue
      was empty, otherwise `b` leaves its packet to the writer. */
  function Wrote<P(==)>(st: State<P>, a: Agent, b: Agent, p: P): State<P>
    requires if st.queue == [] then a !in st.agents else b !in st.agents
  {
    if st.queue == [] then After(After(After(st, Push(a, p)), Front(a)), Start(a))
    else After(st, Push(b, p))
  }

  /** A write that succeeded, up to the start of the next. */
  function Completed<P(==)>(st: State<P>, a: Agent): State<P>
    requires Enabled(st, Written(a))
  {
    var popped := After(st, Written(a));
    if popped.queue == [] then popped else After(After(popped, Front(a)), Start(a))
  }

  /** Both keep the protocol. */
  lemma UninterruptedKeeps<P>(st: State<P>, a: Agent, b: Agent, p: P)
    requires Inv(st)
    ensures (if st.queue == [] then a !in st.agents else b !in st.agents) ==> Inv(Wrote(st, a, b, p))
    ensures Enabled(st, Written(a)) ==> Inv(Completed(st, a))
  {
    hide Inv;
    if st.queue == [] && a !in st.agents {
      var s := After(st, Push(a, p));
      InvStep(st, Push(a, p));
      InvStep(s, Front(a));
      InvStep(After(s, Front(a)), Start(a));
    }
    if st.queue != [] && b !in st.agents {
      InvStep(st, Push(b, p));
    }
    if Enabled(st, Written(a)) {
      var s := After(st, Written(a));
      InvStep(st, Written(a));
      if s.queue != [] {
        InvStep(s, Front(a));
        InvStep(After(s, Front(a)), Start(a));
      }
    }
  }
}
