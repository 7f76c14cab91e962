/** One client and its subscriptions across broken connections (include/rpc_client.hpp). One label
    per critical section of sub_cb_mtx_ or send_queue_mtx_, per completion event of a write or a
    connect, and per packet a server session deals with. A connection may be lost at any moment,
    unnoticed until a write fails; a completed write only says that the bytes were accepted
    locally; every reconnect meets a new, empty session. */
module Reconnect {
  import opened TagStrings
  import Registry

  type Agent = nat

  /** sub_cb_map_ never keeps an empty inner map, so it is determined by its (topic, tag) pairs. */
  datatype Key = Key(topic: string, tag: string)

  datatype Packet =
    | Sub(topic: string, body: string)
    | Cancel(topic: string, body: string)
    | Other(id: nat, name: string, content: string)   // requests and keep-alives

  /** A call under way. A cancel holds sub_cb_mtx_ from its erasures until its packet is queued. */
  datatype Call = Subscribing(topic: string, body: string, done: nat) | Cancelling(topic: string, body: string)

  /** What stands between the client and normal sending: a failed front, a fresh connection that
      nothing was written to, or a re_subscribe that still has topics to go through. */
  datatype Phase = Synced | Failed | Fresh | Resubscribing(todo: set<string>)

  /** `live` and `transit` belong to the current connection; `arrived` says that the front of the
      queue is already in it although its completion has not been seen. */
  datatype State = State(subs: set<Key>, calls: map<Agent, Call>, queue: seq<Packet>, phase: Phase,
                         alive: bool, transit: seq<Packet>, arrived: bool, live: set<Key>)

  datatype Label =
    | SubStart(a: Agent, topic: string, body: string) | SubTag(a: Agent) | SubSend(a: Agent)
    | CancelStart(a: Agent, topic: string, body: string) | CancelSend(a: Agent) | Push(p: Packet)
    | Arrive | Written | Fails | Cut | Deal
    | Connect | ReStart | ReTopic(topic: string, order: seq<string>) | ReEnd

  function Keys(topic: string, body: string): set<Key> {
    set g | g in Split(body) :: Key(topic, g)
  }

  function Topics(subs: set<Key>): set<string> {
    set k | k in subs :: k.topic
  }

  function TagsOf(subs: set<Key>, topic: string): set<string> {
    set k | k in subs && k.topic == topic :: k.tag
  }

  predicate LockFree(st: State) {
    !st.phase.Resubscribing? && forall a :: a in st.calls ==> !st.calls[a].Cancelling?
  }

  predicate Enabled(st: State, l: Label) {
    match l
    case SubStart(a, _, _) => a !in st.calls
    case SubTag(a) =>
      a in st.calls && st.calls[a].Subscribing? && st.calls[a].done < |Split(st.calls[a].body)| && LockFree(st)
    case SubSend(a) => a in st.calls && st.calls[a].Subscribing? && st.calls[a].done == |Split(st.calls[a].body)|
    case CancelStart(a, _, _) => a !in st.calls && LockFree(st)
    case CancelSend(a) => a in st.calls && st.calls[a].Cancelling?
    case Push(p) => p.Other?
    case Arrive => st.phase == Synced && st.queue != [] && st.alive && !st.arrived
    case Written => st.phase == Synced && st.queue != [] && (st.arrived || !st.alive)
    case Fails => st.phase == Synced && st.queue != []
    case Cut => st.alive
    case Deal => st.alive && st.transit != []
    case Connect => st.phase == Failed
    case ReStart => st.phase == Fresh && LockFree(st)
    case ReTopic(topic, order) =>
      st.phase.Resubscribing? && topic in st.phase.todo && Iterates(order, TagsOf(st.subs, topic))
    case ReEnd => st.phase.Resubscribing? && st.phase.todo == {}
  }

  /** What a session does to its own record when it deals with a packet. */
  function Dealt(live: set<Key>, p: Packet): set<Key> {
    match p
    case Sub(topic, body) => live + Keys(topic, body)
    case Cancel(topic, body) => live - Keys(topic, body)
    case Other(_, _, _) => live
  }

  function After(st: State, l: Label): State
    requires Enabled(st, l)
  {
    match l
    case SubStart(a, topic, body) => st.(calls := st.calls[a := Subscribing(topic, body, 0)])
    case SubTag(a) =>
      var c := st.calls[a];
      st.(subs := st.subs + {Key(c.topic, Split(c.body)[c.done])}, calls := st.calls[a := c.(done := c.done + 1)])
    case SubSend(a) =>
      st.(queue := st.queue + [Sub(st.calls[a].topic, st.calls[a].body)], calls := st.calls - {a})
    case CancelStart(a, topic, body) =>
      if topic !in Topics(st.subs) then st
      else st.(subs := st.subs - Keys(topic, body), calls := st.calls[a := Cancelling(topic, body)])
    case CancelSend(a) =>
      st.(queue := st.queue + [Cancel(st.calls[a].topic, st.calls[a].body)], calls := st.calls - {a})
    case Push(p) => st.(queue := st.queue + [p])
    case Arrive => st.(transit := st.transit + [st.queue[0]], arrived := true)
    case Written => st.(queue := st.queue[1..], arrived := false)
    case Fails => st.(phase := Failed, alive := false, arrived := false)
    case Cut => st.(alive := false, arrived := false)
    case Deal => st.(live := Dealt(st.live, st.transit[0]), transit := st.transit[1..])
    case Connect => st.(phase := Fresh, alive := true, transit := [], arrived := false, live := {})
    case ReStart => st.(phase := Resubscribing(Topics(st.subs)))
    case ReTopic(topic, order) =>
      st.(queue := st.queue + [Sub(topic, Join(order))], phase := Resubscribing(st.phase.todo - {topic}))
    case ReEnd => st.(phase := Synced)
  }

  /** Just connected for the first time. */
  const START := State({}, map[], [], Synced, true, [], false, {})

  // ---------------------------------------------------------------- replaying commands

  function Replay(live: set<Key>, ps: seq<Packet>): set<Key>
    decreases |ps|
  {
    if ps == [] then live else Replay(Dealt(live, ps[0]), ps[1..])
  }

  predicate Touches(p: Packet, k: Key) {
    !p.Other? && k.topic == p.topic && k.tag in Split(p.body)
  }

  lemma DealtIn(live: set<Key>, p: Packet, k: Key)
    ensures k in Dealt(live, p) <==> if Touches(p, k) then p.Sub? else k in live
  {
    if !p.Other? {
      assert k in Keys(p.topic, p.body) <==> Touches(p, k);
    }
  }

  lemma {:induction false} ReplayConcat(live: set<Key>, ps: seq<Packet>, qs: seq<Packet>)
    ensures Replay(live, ps + qs) == Replay(Replay(live, ps), qs)
    decreases |ps|
  {
    if ps == [] {
      assert ps + qs == qs;
    } else {
      assert (ps + qs)[1..] == ps[1..] + qs;
      ReplayConcat(Dealt(live, ps[0]), ps[1..], qs);
    }
  }

  lemma ReplayLast(live: set<Key>, ps: seq<Packet>, p: Packet)
    ensures Replay(live, ps + [p]) == Dealt(Replay(live, ps), p)
  {
    ReplayConcat(live, ps, [p]);
    assert [p][1..] == [];
  }

  /** A key that a replay onto less gives, a replay onto more gives too. */
  lemma {:induction false} ReplayGrows(less: set<Key>, more: set<Key>, ps: seq<Packet>, k: Key)
    requires k in less ==> k in more
    ensures k in Replay(less, ps) ==> k in Replay(more, ps)
    decreases |ps|
  {
    if ps == [] {
    } else {
      DealtIn(less, ps[0], k);
      DealtIn(more, ps[0], k);
      ReplayGrows(Dealt(less, ps[0]), Dealt(more, ps[0]), ps[1..], k);
    }
  }

  /** A suffix of the commands, replayed onto an empty session, never gives a key that all of them
      would not give: losing acknowledged packets can lose subscriptions but not revive them. */
  lemma SuffixGivesLess(ps: seq<Packet>, n: nat)
    requires n <= |ps|
    ensures Replay({}, ps[n..]) <= Replay({}, ps)
  {
    ReplayConcat({}, ps[..n], ps[n..]);
    assert ps[..n] + ps[n..] == ps;
    forall k | k in Replay({}, ps[n..]) ensures k in Replay({}, ps) {
      ReplayGrows({}, Replay({}, ps[..n]), ps[n..], k);
    }
  }

  // ---------------------------------------------------------------- the invariant

  function CallKeys(c: Call): set<Key> {
    Keys(c.topic, c.body)
  }

  /** Some call under way names this key. */
  ghost predicate Covered(st: State, k: Key) {
    exists a :: a in st.calls && k in CallKeys(st.calls[a])
  }

  /** A subscribe under way that still has this key to insert. */
  predicate Inserts(c: Call, k: Key) {
    c.Subscribing? && c.done <= |Split(c.body)| && k.topic == c.topic && k.tag in Split(c.body)[c.done..]
  }

  /** A subscribe under way that has inserted this key for good, its packet not yet queued. */
  predicate Holds(c: Call, k: Key) {
    c.Subscribing? && k in CallKeys(c) && !Inserts(c, k)
  }

  ghost predicate Inserting(st: State, k: Key) {
    exists a :: a in st.calls && Inserts(st.calls[a], k)
  }

  ghost predicate Holding(st: State, k: Key) {
    exists a :: a in st.calls && Holds(st.calls[a], k)
  }

  ghost predicate CallOk(c: Call, subs: set<Key>, phase: Phase) {
    match c
    case Subscribing(_, body, done) => done <= |Split(body)|
    case Cancelling(_, _) => CallKeys(c) !! subs && !phase.Resubscribing?
  }

  /** A cancel's keys are out of the map until its packet is queued; a key that a subscribe has
      inserted is in the map, unless another subscribe is about to insert it again. */
  ghost predicate CallsInv(st: State) {
    && (forall a :: a in st.calls ==> CallOk(st.calls[a], st.subs, st.phase))
    && (forall k :: Holding(st, k) ==> k in st.subs || Inserting(st, k))
  }

  /** Tags come from splits, and re_subscribe walks topics of the map. */
  ghost predicate TagsInv(st: State) {
    && (forall k :: k in st.subs ==> !HasSeparator(k.tag))
    && (st.phase.Resubscribing? ==> st.phase.todo <= Topics(st.subs))
  }

  /** Whatever the client does not hold, what it still has to send will not bring to an empty session. */
  ghost predicate NothingExtra(st: State) {
    forall k :: k in Replay({}, st.queue) ==> k in st.subs || Covered(st, k)
  }

  function Unseen(st: State): seq<Packet> {
    st.transit + if st.arrived && st.queue != [] then st.queue[1..] else st.queue
  }

  ghost predicate InStep(st: State) {
    forall k :: !Covered(st, k) ==> (k in Replay(st.live, Unseen(st)) <==> k in st.subs)
  }

  /** Every topic re_subscribe is done with will be subscribed again, by what is queued. */
  ghost predicate Restored(st: State) {
    st.phase.Resubscribing? ==> forall k :: k in st.subs && k.topic !in st.phase.todo ==> k in Replay({}, st.queue)
  }

  /** Between a failed write and the end of re_subscribe the failed front is still queued and
      nothing goes out. */
  ghost predicate Quiet(st: State) {
    st.phase != Synced ==>
      && st.queue != [] && !st.arrived
      && (st.alive ==> st.phase != Failed && st.live == {} && st.transit == [])
  }

  /** While the front is in the connection unacknowledged, it is the last packet there, or was the
      last one dealt with. */
  ghost predicate FrontInv(st: State) {
    st.arrived ==>
      && st.alive && st.queue != []
      && (if st.transit == [] then Dealt(st.live, st.queue[0]) == st.live
          else st.transit[|st.transit| - 1] == st.queue[0])
  }

  ghost predicate Inv(st: State) {
    && CallsInv(st) && TagsInv(st) && NothingExtra(st) && Restored(st) && Quiet(st) && FrontInv(st)
    && (st.phase == Synced && st.alive ==> InStep(st))
  }

  // ---------------------------------------------------------------- what is asked of the callers

  /** No cancel begins on a key that a subscribe has inserted and not yet sent, unless a subscribe is
      about to insert the key again. Every other overlap is harmless. */
  ghost predicate Apart(st: State, l: Label) {
    l.CancelStart? ==> forall k :: k in Keys(l.topic, l.body) && Holding(st, k) ==> Inserting(st, k)
  }

  /** The tags of a topic survive being joined in whatever order and split again. */
  predicate Survives(st: State, l: Label) {
    l.ReTopic? ==> SafeTags(TagsOf(st.subs, l.topic))
  }

  // ---------------------------------------------------------------- every step keeps it

  lemma KeysIn(topic: string, body: string, k: Key)
    ensures k in Keys(topic, body) <==> k.topic == topic && k.tag in Split(body)
  {
  }

  lemma TagIsKey(c: Call, i: nat)
    requires i < |Split(c.body)|
    ensures Key(c.topic, Split(c.body)[i]) in CallKeys(c)
  {
  }

  lemma CallsStep(st: State, l: Label)
    requires CallsInv(st) && Enabled(st, l) && Apart(st, l)
    ensures CallsInv(After(st, l))
  {
    hide CallsInv, Apart, Topics, Replay, Dealt, Split, CallKeys;
    var st' := After(st, l);
    match l
    case SubStart(a, topic, body) => SubscribeStarts(st, a, topic, body);
    case CancelStart(a, topic, body) =>
      if st' != st {
        CancelStarts(st, l);
      }
    case SubTag(a) => TagGoesIn(st, a);
    case SubSend(a) => CallLeaves(st, a, st');
    case CancelSend(a) => CallLeaves(st, a, st');
    case _ => CallsRemain(st, st');
  }

  lemma SubscribeStarts(st: State, a: Agent, topic: string, body: string)
    requires CallsInv(st) && Enabled(st, SubStart(a, topic, body))
    ensures CallsInv(After(st, SubStart(a, topic, body)))
  {
    hide Split, CallKeys, Inserts;
    var st' := After(st, SubStart(a, topic, body));
    assert Split(body)[0..] == Split(body);
    forall k | Holding(st', k) ensures k in st'.subs || Inserting(st', k) {
      var b :| b in st'.calls && Holds(st'.calls[b], k);
      if b == a {
        NewInserts(st'.calls[a], k);
      } else {
        assert Holds(st.calls[b], k);
        if Inserting(st, k) {
          var d :| d in st.calls && Inserts(st.calls[d], k);
          assert Inserts(st'.calls[d], k);
        }
      }
    }
  }

  lemma NewInserts(c: Call, k: Key)
    requires c.Subscribing? && c.done == 0 && k in CallKeys(c)
    ensures Inserts(c, k)
  {
    assert Split(c.body)[0..] == Split(c.body);
  }

  lemma CancelStarts(st: State, l: Label)
    requires CallsInv(st) && Enabled(st, l) && l.CancelStart? && Apart(st, l) && l.topic in Topics(st.subs)
    ensures CallsInv(After(st, l))
  {
    hide Split, Inserts, Topics;
    var st' := After(st, l);
    forall k | Holding(st', k) ensures k in st'.subs || Inserting(st', k) {
      var b :| b in st'.calls && Holds(st'.calls[b], k);
      assert Holds(st.calls[b], k);
      assert Holding(st, k);
      if Inserting(st, k) {
        var d :| d in st.calls && Inserts(st.calls[d], k);
        assert Inserts(st'.calls[d], k);
      }
    }
  }

  /** One insertion: the inserted key is held from now on, for every other key nothing changes. */
  lemma OneInsertion(c: Call, d: Call, k: Key)
    requires c.Subscribing? && c.done < |Split(c.body)| && d == c.(done := c.done + 1)
    ensures k != Key(c.topic, Split(c.body)[c.done]) ==> Inserts(d, k) == Inserts(c, k) && Holds(d, k) == Holds(c, k)
  {
    assert Split(c.body)[c.done..] == [Split(c.body)[c.done]] + Split(c.body)[c.done + 1..];
  }

  lemma TagGoesIn(st: State, a: Agent)
    requires CallsInv(st) && Enabled(st, SubTag(a))
    ensures CallsInv(After(st, SubTag(a)))
  {
    hide Split, CallKeys, Inserts, Holds, Topics;
    var st' := After(st, SubTag(a));
    var c, d := st.calls[a], st'.calls[a];
    var key := Key(c.topic, Split(c.body)[c.done]);
    forall k | Holding(st', k) && k != key ensures k in st'.subs || Inserting(st', k) {
      OneInsertion(c, d, k);
      var b :| b in st'.calls && Holds(st'.calls[b], k);
      assert Holds(st.calls[b], k);
      if Inserting(st, k) {
        var e :| e in st.calls && Inserts(st.calls[e], k);
        assert Inserts(st'.calls[e], k);
      }
    }
  }

  /** A call that has nothing left to insert leaves. */
  lemma CallLeaves(st: State, a: Agent, st': State)
    requires CallsInv(st) && a in st.calls && st' == st.(queue := st'.queue, calls := st.calls - {a})
    requires st.calls[a].Subscribing? ==> st.calls[a].done == |Split(st.calls[a].body)|
    ensures CallsInv(st')
  {
    hide Split, CallKeys;
    forall k | Holding(st', k) ensures k in st'.subs || Inserting(st', k) {
      var b :| b in st'.calls && Holds(st'.calls[b], k);
      assert Holds(st.calls[b], k);
      if Inserting(st, k) {
        var d :| d in st.calls && Inserts(st.calls[d], k);
        assert d != a && d in st'.calls;
      }
    }
  }

  lemma CallsRemain(st: State, st': State)
    requires CallsInv(st) && st'.subs == st.subs && st'.calls == st.calls
    requires st'.phase.Resubscribing? && !st.phase.Resubscribing? ==> LockFree(st)
    ensures CallsInv(st')
  {
    hide CallKeys, Split, Inserts, Holds;
    forall k ensures Holding(st', k) == Holding(st, k) && Inserting(st', k) == Inserting(st, k) {}
  }

  lemma TagsStep(st: State, l: Label)
    requires TagsInv(st) && CallsInv(st) && Enabled(st, l)
    ensures TagsInv(After(st, l))
  {
    hide CallsInv, Split, TagsOf, Replay, Dealt;
    if l.SubTag? {
      SplitTagsHaveNoSeparator(st.calls[l.a].body);
    }
  }

  // ---------------------------------------------------------------- packets leaving the calls

  /** A packet that one call or one topic of re_subscribe puts at the end of the queue: whatever key it
      touches and no other call names, it settles the way the client's map has it. */
  ghost predicate Settles(st: State, p: Packet, st': State) {
    && st' == st.(queue := st.queue + [p], calls := st'.calls, phase := st'.phase)
    && (forall k :: Covered(st', k) ==> Covered(st, k))
    && (forall k :: Covered(st, k) && !Covered(st', k) ==> Touches(p, k))
    && (forall k :: Touches(p, k) && !Covered(st', k) ==> (k in st.subs <==> p.Sub?))
  }

  lemma CallEnds(st: State, a: Agent, p: Packet, st': State)
    requires CallsInv(st) && a in st.calls
    requires var c := st.calls[a];
             if c.Subscribing? then p == Sub(c.topic, c.body) && c.done == |Split(c.body)|
             else p == Cancel(c.topic, c.body)
    requires st' == st.(queue := st.queue + [p], calls := st.calls - {a})
    ensures Settles(st, p, st')
  {
    hide Split;
    var c := st.calls[a];
    assert CallOk(c, st.subs, st.phase);
    forall k | Covered(st, k) && !Covered(st', k) ensures Touches(p, k) {
      var b :| b in st.calls && k in CallKeys(st.calls[b]);
      assert b in st'.calls || b == a;
    }
    forall k | Touches(p, k) && !Covered(st', k) ensures k in st.subs <==> p.Sub? {
      KeysIn(c.topic, c.body, k);
      if p.Sub? {
        assert Holds(c, k);
        assert Holding(st, k);
        if Inserting(st, k) {
          InsertingCovers(st, st', a, k);
        }
      }
    }
  }

  lemma InsertingCovers(st: State, st': State, a: Agent, k: Key)
    requires Inserting(st, k) && a in st.calls && st'.calls == st.calls - {a} && !Inserts(st.calls[a], k)
    ensures Covered(st', k)
  {
    var d :| d in st.calls && Inserts(st.calls[d], k);
    assert d in st'.calls && k in CallKeys(st'.calls[d]);
  }

  /** What goes out for one topic names exactly the topic's keys. */
  ghost predicate Restores(subs: set<Key>, topic: string, order: seq<string>) {
    forall k :: Touches(Sub(topic, Join(order)), k) <==> k in subs && k.topic == topic
  }

  lemma RestoresTags(subs: set<Key>, topic: string, order: seq<string>)
    ensures Restores(subs, topic, order) <==> TagSet(Join(order)) == TagsOf(subs, topic)
  {
    hide Join, Split;
    forall g ensures g in TagsOf(subs, topic) <==> Key(topic, g) in subs {}
    if Restores(subs, topic, order) {
      forall g ensures g in TagSet(Join(order)) <==> g in TagsOf(subs, topic) {
        assert Touches(Sub(topic, Join(order)), Key(topic, g)) <==> g in TagSet(Join(order));
      }
    } else {
      var k :| Touches(Sub(topic, Join(order)), k) != (k in subs && k.topic == topic);
      assert k.topic == topic ==> k == Key(topic, k.tag);
      assert k.tag in TagSet(Join(order)) <==> k.tag in Split(Join(order));
    }
  }

  /** Exactly when: re_subscribe's packet for a topic names exactly the topic's keys, whatever order
      the map walks them in, iff there is one tag, or none ends in a bar, or they are "|" and "". */
  lemma TopicRestoredExactly(subs: set<Key>, topic: string)
    requires topic in Topics(subs) && forall k :: k in subs ==> !HasSeparator(k.tag)
    ensures (forall order :: Iterates(order, TagsOf(subs, topic)) ==> Restores(subs, topic, order))
       <==> SafeTags(TagsOf(subs, topic))
  {
    hide Restores, SafeTags, Iterates;
    var tags := TagsOf(subs, topic);
    var k :| k in subs && k.topic == topic;
    assert k.tag in tags;
    SurvivesEveryOrder(tags);
    forall order ensures Restores(subs, topic, order) <==> TagSet(Join(order)) == tags {
      RestoresTags(subs, topic, order);
    }
  }

  /** The same of the state re_subscribe leaves, so the condition is exact for convergence too: if the
      queue gives an empty session no key of a topic whose turn it is, then after that turn the queue
      and the map agree on the topic's keys, whatever the order, iff its tags are safe. */
  lemma TopicAgreesExactly(st: State, topic: string)
    requires TagsInv(st) && st.phase.Resubscribing? && topic in st.phase.todo
    requires forall k :: k in Replay({}, st.queue) ==> k.topic != topic
    ensures (forall order :: Iterates(order, TagsOf(st.subs, topic)) ==>
               Agrees(After(st, ReTopic(topic, order)), topic))
       <==> SafeTags(TagsOf(st.subs, topic))
  {
    hide SafeTags, Iterates, Replay, Restores, Agrees;
    TopicRestoredExactly(st.subs, topic);
    forall order | Iterates(order, TagsOf(st.subs, topic))
      ensures Agrees(After(st, ReTopic(topic, order)), topic) <==> Restores(st.subs, topic, order)
    {
      AgreesIfRestores(st, topic, order);
    }
  }

  /** A session that starts empty and gets what is queued has the client's keys of this topic. */
  ghost predicate Agrees(st: State, topic: string) {
    forall k: Key :: k.topic == topic ==> (k in Replay({}, st.queue) <==> k in st.subs)
  }

  lemma AgreesIfRestores(st: State, topic: string, order: seq<string>)
    requires Enabled(st, ReTopic(topic, order)) && forall k :: k in Replay({}, st.queue) ==> k.topic != topic
    ensures Agrees(After(st, ReTopic(topic, order)), topic) <==> Restores(st.subs, topic, order)
  {
    hide TagsOf, Iterates, Replay, Dealt, Join, Split;
    var p := Sub(topic, Join(order));
    ReplayLast({}, st.queue, p);
    forall k: Key ensures k.topic == topic ==> (k in Replay({}, st.queue + [p]) <==> Touches(p, k)) {
      DealtIn(Replay({}, st.queue), p, k);
    }
  }

  lemma TopicGoes(st: State, topic: string, order: seq<string>)
    requires Enabled(st, ReTopic(topic, order)) && Restores(st.subs, topic, order)
    ensures Settles(st, Sub(topic, Join(order)), After(st, ReTopic(topic, order)))
  {
    hide TagsOf, Join, Split, Touches;
    var st' := After(st, ReTopic(topic, order));
    forall k ensures Covered(st', k) <==> Covered(st, k) {}
  }

  lemma SettledExtra(st: State, p: Packet, st': State)
    requires NothingExtra(st) && Settles(st, p, st')
    ensures NothingExtra(st')
  {
    hide Touches, Replay, Dealt, Covered;
    ReplayLast({}, st.queue, p);
    forall k | k in Replay({}, st'.queue) ensures k in st'.subs || Covered(st', k) {
      DealtIn(Replay({}, st.queue), p, k);
    }
  }

  lemma SettledStep(st: State, p: Packet, st': State)
    requires InStep(st) && Settles(st, p, st') && (st.arrived ==> st.queue != [])
    ensures InStep(st')
  {
    hide Touches, Replay, Dealt, Covered;
    UnseenGrows(st, p, st');
    ReplayLast(st.live, Unseen(st), p);
    forall k | !Covered(st', k) ensures k in Replay(st'.live, Unseen(st')) <==> k in st'.subs {
      DealtIn(Replay(st.live, Unseen(st)), p, k);
    }
  }

  lemma UnseenGrows(st: State, p: Packet, st': State)
    requires st'.queue == st.queue + [p] && st'.transit == st.transit && st'.arrived == st.arrived
    requires st.arrived ==> st.queue != []
    ensures Unseen(st') == Unseen(st) + [p]
  {
    if st.arrived {
      assert (st.queue + [p])[1..] == st.queue[1..] + [p];
    }
  }

  lemma SettledRestored(st: State, p: Packet, st': State)
    requires Restored(st) && Settles(st, p, st') && st.phase == st'.phase
    requires st.phase.Resubscribing? ==> !p.Cancel?
    ensures Restored(st')
  {
    hide Replay, Dealt, Covered;
    ReplayLast({}, st.queue, p);
    forall k | !p.Cancel? && k in Replay({}, st.queue) ensures k in Replay({}, st'.queue) {
      DealtIn(Replay({}, st.queue), p, k);
    }
  }

  lemma TopicRestored(st: State, topic: string, order: seq<string>)
    requires Restored(st) && Enabled(st, ReTopic(topic, order)) && Restores(st.subs, topic, order)
    ensures Restored(After(st, ReTopic(topic, order)))
  {
    hide Touches, Replay, Dealt, Join, TagsOf;
    var st' := After(st, ReTopic(topic, order));
    var p := Sub(topic, Join(order));
    ReplayLast({}, st.queue, p);
    forall k | k in st'.subs && k.topic !in st'.phase.todo ensures k in Replay({}, st'.queue) {
      DealtIn(Replay({}, st.queue), p, k);
    }
  }

  /** Steps that put a packet into the queue. */
  lemma PacketStep(st: State, l: Label)
    requires Inv(st) && Enabled(st, l) && Survives(st, l)
    requires l.SubSend? || l.CancelSend? || l.Push? || l.ReTopic?
    ensures NothingExtra(After(st, l)) && Restored(After(st, l)) && Quiet(After(st, l)) && FrontInv(After(st, l))
    ensures st.phase == Synced && st.alive ==> InStep(After(st, l))
  {
    hide CallsInv, NothingExtra, Restored, InStep, Touches, Replay, Dealt, Split, Join, Restores, Settles, Covered;
    var st' := After(st, l);
    var p := st'.queue[|st.queue|];
    match l {
      case SubSend(a) =>
        SendFacts(st, a);
        CallEnds(st, a, p, st');
      case CancelSend(a) =>
        SendFacts(st, a);
        CallEnds(st, a, p, st');
      case Push(_) => OtherSettles(st, p);
      case ReTopic(topic, order) =>
        TopicRestoredExactly(st.subs, topic);
        TopicGoes(st, topic, order);
    }
    SettledExtra(st, p, st');
    if l.ReTopic? {
      TopicRestored(st, l.topic, l.order);
    } else {
      SettledRestored(st, p, st');
    }
    if st.phase == Synced && st.alive {
      SettledStep(st, p, st');
    }
    assert FrontInv(st');
  }

  lemma SendFacts(st: State, a: Agent)
    requires CallsInv(st) && a in st.calls
    ensures st.calls[a].Cancelling? ==> !st.phase.Resubscribing?
  {
    assert CallOk(st.calls[a], st.subs, st.phase);
  }

  lemma OtherSettles(st: State, p: Packet)
    requires p.Other?
    ensures Settles(st, p, After(st, Push(p)))
  {
    hide Split;
    forall k ensures Covered(After(st, Push(p)), k) <==> Covered(st, k) {}
  }

  // ---------------------------------------------------------------- the map, the connection

  /** Steps on the client's map move only keys that a call then covers. */
  lemma MapStep(st: State, l: Label)
    requires Inv(st) && Enabled(st, l) && (l.SubStart? || l.SubTag? || l.CancelStart?)
    ensures NothingExtra(After(st, l)) && Restored(After(st, l)) && Quiet(After(st, l)) && FrontInv(After(st, l))
    ensures st.phase == Synced && st.alive ==> InStep(After(st, l))
  {
    hide CallsInv, NothingExtra, InStep, Restored, Replay, Dealt, Split, Topics;
    var st' := After(st, l);
    forall k ensures (Covered(st, k) ==> Covered(st', k)) && ((k in st'.subs) != (k in st.subs) ==> Covered(st', k)) {
      MapMoves(st, l, k);
    }
    assert MapOnly(st, st');
    MapExtra(st, st');
    MapRestored(st, st');
    if st.phase == Synced && st.alive {
      MapInStep(st, st');
    }
  }

  lemma MapMoves(st: State, l: Label, k: Key)
    requires Enabled(st, l) && (l.SubStart? || l.SubTag? || l.CancelStart?)
    ensures var st' := After(st, l);
            && (Covered(st, k) ==> Covered(st', k))
            && ((k in st'.subs) != (k in st.subs) ==> Covered(st', k))
  {
    hide Split, Topics, Replay, Dealt;
    var st' := After(st, l);
    if Covered(st, k) {
      var b :| b in st.calls && k in CallKeys(st.calls[b]);
      assert b in st'.calls && CallKeys(st'.calls[b]) == CallKeys(st.calls[b]);
    }
    if (k in st'.subs) != (k in st.subs) {
      if l.SubTag? {
        TagIsKey(st.calls[l.a], st.calls[l.a].done);
      }
      assert k in CallKeys(st'.calls[l.a]);
    }
  }

  /** Same queue and connection; coverage only grows; what moved in the map is covered. */
  ghost predicate MapOnly(st: State, st': State) {
    && st' == st.(subs := st'.subs, calls := st'.calls)
    && forall k :: (Covered(st, k) ==> Covered(st', k)) && ((k in st'.subs) != (k in st.subs) ==> Covered(st', k))
  }

  lemma MapExtra(st: State, st': State)
    requires NothingExtra(st) && MapOnly(st, st')
    ensures NothingExtra(st')
  {
    hide Covered;
  }

  lemma MapRestored(st: State, st': State)
    requires Restored(st) && MapOnly(st, st') && (st.phase.Resubscribing? ==> st'.subs == st.subs)
    ensures Restored(st')
  {
  }

  lemma MapInStep(st: State, st': State)
    requires InStep(st) && MapOnly(st, st')
    ensures InStep(st')
  {
    hide Covered, Replay;
    assert Unseen(st') == Unseen(st);
  }

  /** Steps of the connection leave the map and the calls alone. */
  lemma LinkStep(st: State, l: Label)
    requires Inv(st) && Enabled(st, l)
    requires l.Fails? || l.Cut? || l.Connect? || l.ReStart? || l.ReEnd?
    ensures NothingExtra(After(st, l)) && Restored(After(st, l)) && Quiet(After(st, l)) && FrontInv(After(st, l))
    ensures After(st, l).phase == Synced && After(st, l).alive ==> InStep(After(st, l))
  {
    hide CallsInv, Split, Replay, Dealt;
    var st' := After(st, l);
    forall k ensures Covered(st', k) <==> Covered(st, k) {}
    if l.ReStart? {
      assert forall k :: k in st.subs ==> k.topic in Topics(st.subs);
    }
    if l.ReEnd? && st.alive {
      assert Unseen(st') == st.queue;
    }
  }

  lemma FrontAgain(live: set<Key>, p: Packet)
    ensures Dealt(Dealt(live, p), p) == Dealt(live, p)
  {
  }

  /** Steps that move a packet along: into the connection, out of the queue, into the session. */
  lemma MoveStep(st: State, l: Label)
    requires Inv(st) && Enabled(st, l) && (l.Arrive? || l.Written? || l.Deal?)
    ensures NothingExtra(After(st, l)) && Restored(After(st, l)) && Quiet(After(st, l)) && FrontInv(After(st, l))
    ensures After(st, l).phase == Synced && After(st, l).alive ==> InStep(After(st, l))
  {
    hide CallsInv, Split;
    var st' := After(st, l);
    forall k ensures Covered(st', k) <==> Covered(st, k) {}
    match l {
      case Arrive =>
        assert st.transit + [st.queue[0]] + st.queue[1..] == st.transit + st.queue;
      case Written =>
        SuffixGivesLess(st.queue, 1);
      case Deal =>
        FrontAgain(st.live, st.transit[0]);
        assert Unseen(st) == [st.transit[0]] + Unseen(st');
        assert Unseen(st)[1..] == Unseen(st');
    }
  }

  lemma InvStep(st: State, l: Label)
    requires Inv(st) && Enabled(st, l) && Apart(st, l) && Survives(st, l)
    ensures Inv(After(st, l))
  {
    hide CallsInv, TagsInv, NothingExtra, InStep, Restored, Quiet, FrontInv, After, Enabled, Apart, Survives;
    CallsStep(st, l);
    TagsStep(st, l);
    if l.SubSend? || l.CancelSend? || l.Push? || l.ReTopic? {
      SamePhase(st, l);
      PacketStep(st, l);
    } else if l.SubStart? || l.SubTag? || l.CancelStart? {
      SamePhase(st, l);
      MapStep(st, l);
    } else if l.Arrive? || l.Written? || l.Deal? {
      MoveStep(st, l);
    } else {
      LinkStep(st, l);
    }
  }

  lemma SamePhase(st: State, l: Label)
    requires Enabled(st, l)
    requires l.SubSend? || l.CancelSend? || l.Push? || l.ReTopic? || l.SubStart? || l.SubTag? || l.CancelStart?
    ensures After(st, l).phase == Synced <==> st.phase == Synced
    ensures After(st, l).alive == st.alive
  {
  }

  // ---------------------------------------------------------------- runs

  ghost predicate Run(states: seq<State>, labels: seq<Label>) {
    && |states| == |labels| + 1 && states[0] == START
    && forall i :: 0 <= i < |labels| ==> Enabled(states[i], labels[i]) && states[i + 1] == After(states[i], labels[i])
  }

  ghost predicate Careful(states: seq<State>, labels: seq<Label>)
    requires |states| == |labels| + 1
  {
    forall i :: 0 <= i < |labels| ==> Apart(states[i], labels[i]) && Survives(states[i], labels[i])
  }

  lemma {:induction false} InvAlways(states: seq<State>, labels: seq<Label>, i: nat)
    requires Run(states, labels) && Careful(states, labels) && i < |states|
    ensures Inv(states[i])
  {
    hide After, Enabled, Apart, Survives;
    if i == 0 {
      forall k ensures !Covered(START, k) {}
    } else {
      InvAlways(states, labels, i - 1);
      InvStep(states[i - 1], labels[i - 1]);
      assert states[i - 1 + 1] == states[i];
    }
  }

  /** A front that is both in the connection and in the queue is replayed twice, to no effect. */
  lemma TwiceIsOnce(st: State)
    requires FrontInv(st)
    ensures Replay(st.live, st.transit + st.queue) == Replay(st.live, Unseen(st))
  {
    hide Dealt;
    if st.arrived {
      var p, rest := st.queue[0], st.queue[1..];
      assert st.queue == [p] + rest;
      ReplayConcat(st.live, st.transit, st.queue);
      ReplayConcat(st.live, st.transit, rest);
      if st.transit != [] {
        var n := |st.transit| - 1;
        assert st.transit == st.transit[..n] + [p];
        ReplayLast(st.live, st.transit[..n], p);
        FrontAgain(Replay(st.live, st.transit[..n]), p);
      }
    }
  }

  /** Reconnect convergence. In every state of every run with calls on one key kept apart, however
      many writes failed and sessions were replaced: outside the stretch from a failed write to the
      end of re_subscribe, and while the connection lasts, replaying every packet in transit or
      queued onto the live session's subscriptions gives exactly the client's keys, except those
      that a call under way names. */
  lemma Convergence(states: seq<State>, labels: seq<Label>, i: nat, k: Key)
    requires Run(states, labels) && Careful(states, labels) && i < |states|
    requires states[i].phase == Synced && states[i].alive && !Covered(states[i], k)
    ensures k in Replay(states[i].live, states[i].transit + states[i].queue) <==> k in states[i].subs
  {
    InvAlways(states, labels, i);
    TwiceIsOnce(states[i]);
  }

  /** With no call under way the whole key set is the client's; with nothing left to send or to
      deal with, the session's own record is. */
  lemma QuietConvergence(states: seq<State>, labels: seq<Label>, i: nat)
    requires Run(states, labels) && Careful(states, labels) && i < |states|
    requires states[i].phase == Synced && states[i].alive && states[i].calls == map[]
    ensures Replay(states[i].live, states[i].transit + states[i].queue) == states[i].subs
    ensures states[i].transit == [] && states[i].queue == [] ==> states[i].live == states[i].subs
  {
    forall k ensures k in Replay(states[i].live, states[i].transit + states[i].queue) <==> k in states[i].subs {
      Convergence(states, labels, i, k);
    }
  }

  /** At every moment, connected or not, what is queued would not subscribe an empty session to
      anything that the client does not hold or a call under way does not name; and when
      re_subscribe reaches its send() the queue has a front. */
  lemma NothingRevived(states: seq<State>, labels: seq<Label>, i: nat, k: Key)
    requires Run(states, labels) && Careful(states, labels) && i < |states|
    ensures k in Replay({}, states[i].queue) ==> k in states[i].subs || Covered(states[i], k)
    ensures states[i].phase.Resubscribing? ==> states[i].queue != []
  {
    InvAlways(states, labels, i);
  }

  // ---------------------------------------------------------------- what a caller can see to

  predicate Plain(body: string) {
    forall g :: g in Split(body) ==> !EndsInBar(g)
  }

  ghost predicate PlainInv(st: State) {
    && (forall k :: k in st.subs ==> !EndsInBar(k.tag))
    && (forall a :: a in st.calls && st.calls[a].Subscribing? ==> Plain(st.calls[a].body))
  }

  lemma PlainStep(st: State, l: Label)
    requires PlainInv(st) && Enabled(st, l) && (l.SubStart? ==> Plain(l.body))
    ensures PlainInv(After(st, l)) && Survives(st, l)
  {
    hide Replay, Dealt, Split, Join;
  }

  /** If no tag that is ever subscribed ends in a bar, every re_subscribe finds safe tags. */
  lemma {:induction false} PlainTagsSurvive(states: seq<State>, labels: seq<Label>, i: nat)
    requires Run(states, labels) && i < |states|
    requires forall j :: 0 <= j < |labels| && labels[j].SubStart? ==> Plain(labels[j].body)
    ensures PlainInv(states[i]) && (i < |labels| ==> Survives(states[i], labels[i]))
  {
    hide After, Enabled, Survives, Plain;
    if i == 0 {
      assert PlainInv(START);
    } else {
      PlainTagsSurvive(states, labels, i - 1);
      PlainStep(states[i - 1], labels[i - 1]);
      assert states[i - 1 + 1] == states[i];
    }
    if i < |labels| {
      PlainStep(states[i], labels[i]);
    }
  }

  /** Convergence with conditions on subscribe and cancel calls only: no tag of a subscribe ends in a
      bar, and no cancel begins on a key that a subscribe under way has inserted for good. */
  lemma CallersConvergence(states: seq<State>, labels: seq<Label>, i: nat, k: Key)
    requires Run(states, labels) && i < |states|
    requires forall j :: 0 <= j < |labels| && labels[j].SubStart? ==> Plain(labels[j].body)
    requires forall j :: 0 <= j < |labels| && labels[j].CancelStart? ==> Apart(states[j], labels[j])
    requires states[i].phase == Synced && states[i].alive && !Covered(states[i], k)
    ensures k in Replay(states[i].live, states[i].transit + states[i].queue) <==> k in states[i].subs
  {
    hide Survives, Plain;
    forall j | 0 <= j < |labels| ensures Survives(states[j], labels[j]) {
      PlainTagsSurvive(states, labels, j);
    }
    Convergence(states, labels, i, k);
  }

  /** No cancel begins on a key that a call under way names: a rule that looks at the arguments of the
      calls only, not at how far they have come. */
  ghost predicate Alone(st: State, l: Label) {
    l.CancelStart? ==> forall k :: k in Keys(l.topic, l.body) ==> !Covered(st, k)
  }

  /** Convergence with conditions that the threads which call subscribe and cancel_subscribe can see
      to with a lock of their own: no tag of a subscribe ends in a bar, and nobody cancels a key while
      another call on it is under way. */
  lemma LockedCallersConvergence(states: seq<State>, labels: seq<Label>, i: nat, k: Key)
    requires Run(states, labels) && i < |states|
    requires forall j :: 0 <= j < |labels| && labels[j].SubStart? ==> Plain(labels[j].body)
    requires forall j :: 0 <= j < |labels| ==> Alone(states[j], labels[j])
    requires states[i].phase == Synced && states[i].alive && !Covered(states[i], k)
    ensures k in Replay(states[i].live, states[i].transit + states[i].queue) <==> k in states[i].subs
  {
    hide Plain, Enabled, After, Replay, Alone, Apart;
    forall j | 0 <= j < |labels| ensures Apart(states[j], labels[j]) {
      AloneIsApart(states[j], labels[j]);
    }
    CallersConvergence(states, labels, i, k);
  }

  lemma AloneIsApart(st: State, l: Label)
    requires Alone(st, l)
    ensures Apart(st, l)
  {
  }

  // ---------------------------------------------------------------- exactly when overlaps are harmless

  /** The keys a subscribe still has to insert. */
  function Rest(c: Call): set<Key>
    requires c.Subscribing?
  {
    set i | c.done <= i < |Split(c.body)| :: Key(c.topic, Split(c.body)[i])
  }

  lemma RestIsInserts(c: Call, k: Key)
    requires c.Subscribing? && c.done <= |Split(c.body)|
    ensures k in Rest(c) <==> Inserts(c, k)
  {
    if Inserts(c, k) {
      var j :| 0 <= j < |Split(c.body)[c.done..]| && Split(c.body)[c.done..][j] == k.tag;
      assert Split(c.body)[c.done + j] == k.tag;
    }
    if k in Rest(c) {
      var i :| c.done <= i < |Split(c.body)| && Key(c.topic, Split(c.body)[i]) == k;
      assert Split(c.body)[c.done..][i - c.done] == k.tag;
    }
  }

  predicate Subscriber(st: State, a: Agent) {
    a in st.calls && st.calls[a].Subscribing? && st.calls[a].done <= |Split(st.calls[a].body)|
  }

  /** The rest of one subscribe call, with nobody in between. */
  function Completed(st: State, a: Agent): (r: State)
    requires LockFree(st) && Subscriber(st, a)
    ensures r == st.(subs := st.subs + Rest(st.calls[a]), calls := st.calls - {a},
                     queue := st.queue + [Sub(st.calls[a].topic, st.calls[a].body)])
    decreases |Split(st.calls[a].body)| - st.calls[a].done
  {
    if st.calls[a].done == |Split(st.calls[a].body)| then
      assert Rest(st.calls[a]) == {};
      After(st, SubSend(a))
    else
      OneInserted(st, a);
      Completed(After(st, SubTag(a)), a)
  }

  lemma OneInserted(st: State, a: Agent)
    requires LockFree(st) && Subscriber(st, a) && st.calls[a].done < |Split(st.calls[a].body)|
    ensures Enabled(st, SubTag(a))
    ensures var st' := After(st, SubTag(a));
            && LockFree(st') && Subscriber(st', a) && st'.calls - {a} == st.calls - {a}
            && st'.subs + Rest(st'.calls[a]) == st.subs + Rest(st.calls[a])
  {
    hide Split;
    var st' := After(st, SubTag(a));
    var c, d := st.calls[a], st'.calls[a];
    assert Rest(c) == {Key(c.topic, Split(c.body)[c.done])} + Rest(d);
  }

  /** A cancel call with nobody in between. */
  function Cancelled(st: State, l: Label): State
    requires Enabled(st, l) && l.CancelStart?
  {
    var begun := After(st, l);
    if l.a in begun.calls then After(begun, CancelSend(l.a)) else begun
  }

  ghost predicate Waiting(st: State, order: seq<Agent>) {
    && LockFree(st) && (forall a :: a in order ==> Subscriber(st, a))
    && forall i, j :: 0 <= i < j < |order| ==> order[i] != order[j]
  }

  lemma StillWaiting(st: State, order: seq<Agent>)
    requires Waiting(st, order) && order != []
    ensures Waiting(Completed(st, order[0]), order[1..])
  {
    hide Split, Completed, Rest;
    forall a | a in order[1..] ensures Subscriber(Completed(st, order[0]), a) {
      var i :| 0 <= i < |order[1..]| && order[1..][i] == a;
      assert order[i + 1] == a && a != order[0];
      assert Subscriber(st, a) && Subscriber(st, order[0]);
      assert Completed(st, order[0]).calls[a] == st.calls[a];
    }
  }

  /** Subscribes completed one after another. */
  ghost function AllCompleted(st: State, order: seq<Agent>): State
    requires Waiting(st, order)
    decreases |order|
  {
    if order == [] then st
    else
      StillWaiting(st, order);
      AllCompleted(Completed(st, order[0]), order[1..])
  }

  /** Completing subscribes adds what they still had to insert, and subscribes the session to
      everything they name. */
  lemma {:induction false} AllCompletedKeys(st: State, order: seq<Agent>, live: set<Key>, before: seq<Packet>, k: Key)
    requires Waiting(st, order)
    ensures var end := AllCompleted(st, order);
            && end == st.(subs := end.subs, calls := end.calls, queue := end.queue)
            && (forall a :: a in end.calls <==> a in st.calls && a !in order)
            && (k in end.subs <==> k in st.subs || exists a :: a in order && Inserts(st.calls[a], k))
            && (k in Replay(live, before + end.queue) <==>
                  k in Replay(live, before + st.queue) || exists a :: a in order && k in CallKeys(st.calls[a]))
    decreases |order|
  {
    hide Split, Inserts, CallKeys, Replay, Completed, Rest, Dealt, Touches;
    if order == [] {
    } else {
      assert Subscriber(st, order[0]);
      var a, c := order[0], st.calls[order[0]];
      var mid := Completed(st, a);
      var p := Sub(c.topic, c.body);
      StillWaiting(st, order);
      AllCompletedKeys(mid, order[1..], live, before, k);
      RestIsInserts(c, k);
      assert before + mid.queue == (before + st.queue) + [p];
      ReplayLast(live, before + st.queue, p);
      DealtIn(Replay(live, before + st.queue), p, k);
      SubTouches(c, k);
      assert order == [a] + order[1..];
      forall b | b in order[1..] ensures b in mid.calls && mid.calls[b] == st.calls[b] {
        assert Subscriber(mid, b);
      }
    }
  }

  lemma SubTouches(c: Call, k: Key)
    ensures Touches(Sub(c.topic, c.body), k) <==> k in CallKeys(c)
  {
  }

  lemma {:induction false} CompletedKeeps(st: State, a: Agent)
    requires Inv(st) && LockFree(st) && Subscriber(st, a)
    ensures Inv(Completed(st, a))
    decreases |Split(st.calls[a].body)| - st.calls[a].done
  {
    hide Inv, Split;
    if st.calls[a].done == |Split(st.calls[a].body)| {
      InvStep(st, SubSend(a));
    } else {
      OneInserted(st, a);
      InvStep(st, SubTag(a));
      CompletedKeeps(After(st, SubTag(a)), a);
    }
  }

  lemma {:induction false} AllCompletedKeeps(st: State, order: seq<Agent>)
    requires Inv(st) && Waiting(st, order)
    ensures Inv(AllCompleted(st, order))
    decreases |order|
  {
    hide Inv, Completed;
    if order == [] {
    } else {
      CompletedKeeps(st, order[0]);
      StillWaiting(st, order);
      AllCompletedKeeps(Completed(st, order[0]), order[1..]);
    }
  }

  /** A whole subscribe call gives the client the keys it names, and queues one packet that names them. */
  lemma SubscribeDoes(st: State, a: Agent, topic: string, body: string, k: Key)
    requires LockFree(st) && a !in st.calls
    ensures Enabled(st, SubStart(a, topic, body))
    ensures var begun := After(st, SubStart(a, topic, body));
            && LockFree(begun) && Subscriber(begun, a)
            && var end := Completed(begun, a);
               && (k in end.subs <==> k in st.subs || (k.topic == topic && k.tag in Split(body)))
               && end == st.(subs := end.subs, queue := st.queue + [Sub(topic, body)])
  {
    hide Split, Inserts;
    var begun := After(st, SubStart(a, topic, body));
    RestIsInserts(begun.calls[a], k);
    AllToInsert(begun.calls[a], k);
    assert begun.calls - {a} == st.calls;
  }

  lemma AllToInsert(c: Call, k: Key)
    requires c.Subscribing? && c.done == 0
    ensures Inserts(c, k) <==> k.topic == c.topic && k.tag in Split(c.body)
  {
    assert Split(c.body)[0..] == Split(c.body);
  }

  /** A whole cancel call takes the keys it names away, and queues one packet that names them if the
      client has the topic. */
  lemma CancelDoes(st: State, l: Label, k: Key)
    requires Enabled(st, l) && l.CancelStart?
    ensures var end := Cancelled(st, l);
            && (k in end.subs <==> k in st.subs && !(k.topic == l.topic && k.tag in Split(l.body)))
            && end == st.(subs := end.subs,
                          queue := st.queue + if l.topic in Topics(st.subs) then [Cancel(l.topic, l.body)] else [])
  {
    hide Split, Topics;
    CancelledIs(st, l);
    KeysIn(l.topic, l.body, k);
  }

  lemma CancelledIs(st: State, l: Label)
    requires Enabled(st, l) && l.CancelStart?
    ensures var st' := Cancelled(st, l);
            && st' == st.(subs := st.subs - Keys(l.topic, l.body), queue := st'.queue)
            && (l.topic in Topics(st.subs) ==> st'.queue == st.queue + [Cancel(l.topic, l.body)])
            && (l.topic !in Topics(st.subs) ==> st'.queue == st.queue)
  {
    hide Split;
    if l.topic in Topics(st.subs) {
      assert (st.calls[l.a := Cancelling(l.topic, l.body)]) - {l.a} == st.calls;
    } else {
      assert st.subs - Keys(l.topic, l.body) == st.subs;
    }
  }

  lemma CancelledKeeps(st: State, l: Label)
    requires Inv(st) && Enabled(st, l) && l.CancelStart? && Apart(st, l)
    ensures Inv(Cancelled(st, l))
  {
    hide Inv, Split;
    InvStep(st, l);
    if l.a in After(st, l).calls {
      InvStep(After(st, l), CancelSend(l.a));
    }
  }

  lemma AllWaiting(st: State, order: seq<Agent>)
    requires CallsInv(st) && LockFree(st) && (forall a :: a in order ==> a in st.calls)
    requires forall i, j :: 0 <= i < j < |order| ==> order[i] != order[j]
    ensures Waiting(st, order)
  {
    hide Split;
    forall a | a in order ensures Subscriber(st, a) {
      assert CallOk(st.calls[a], st.subs, st.phase);
    }
  }

  /** What is left once the cancel and then all the subscribes under way have run to their ends. */
  ghost function Outcome(st: State, l: Label, order: seq<Agent>): State
    requires Enabled(st, l) && l.CancelStart? && Waiting(Cancelled(st, l), order)
  {
    AllCompleted(Cancelled(st, l), order)
  }

  lemma OutcomeMisses(st: State, l: Label, order: seq<Agent>, live: set<Key>, before: seq<Packet>, k: Key)
    requires CallsInv(st) && Enabled(st, l) && l.CancelStart? && Waiting(Cancelled(st, l), order)
    requires (set a | a in order) == st.calls.Keys
    requires k in Keys(l.topic, l.body) && Holding(st, k) && !Inserting(st, k)
    ensures k !in Outcome(st, l, order).subs && k in Replay(live, before + Outcome(st, l, order).queue)
  {
    hide Inserts, Split, Replay, Topics;
    CancelledIs(st, l);
    var st' := Cancelled(st, l);
    AllCompletedKeys(st', order, live, before, k);
    forall a | a in order ensures a in st.calls {
      assert a in (set b | b in order);
    }
    var a :| a in st.calls && Holds(st.calls[a], k);
    assert a in (set b | b in order);
  }

  /** Exactly when. Take any state that the protocol's invariant allows, any cancel that may start in
      it and any order in which the subscribes under way then complete. In the end the commands
      queued subscribe an empty session to nothing the client does not hold iff the cancel was
      apart; and on a connection in step, what is in transit and queued gives exactly the client's
      keys iff it was. */
  lemma ApartIsExact(st: State, l: Label, order: seq<Agent>)
    requires Inv(st) && Enabled(st, l) && l.CancelStart?
    requires (set a | a in order) == st.calls.Keys && forall i, j :: 0 <= i < j < |order| ==> order[i] != order[j]
    ensures Waiting(Cancelled(st, l), order)
    ensures var end := Outcome(st, l, order);
            && end.calls == map[]
            && (Replay({}, end.queue) <= end.subs <==> Apart(st, l))
            && (st.phase == Synced && st.alive ==>
                   (Replay(end.live, end.transit + end.queue) == end.subs <==> Apart(st, l)))
  {
    hide Inv, CallsInv, Inserts, Split, Replay, Topics, Outcome;
    CancelledIs(st, l);
    assert CallsInv(st) by { InvParts(st); }
    assert Waiting(Cancelled(st, l), order) by { OrderWaits(st, l, order); }
    var end := Outcome(st, l, order);
    OutcomeIs(st, l, order);
    if Apart(st, l) {
      CancelledKeeps(st, l);
      AllCompletedKeeps(Cancelled(st, l), order);
      assert end == AllCompleted(Cancelled(st, l), order) by { OutcomeDef(st, l, order); }
      InvAtRest(end);
    } else {
      var k :| k in Keys(l.topic, l.body) && Holding(st, k) && !Inserting(st, k);
      OutcomeMisses(st, l, order, {}, [], k);
      assert [] + end.queue == end.queue;
      OutcomeMisses(st, l, order, end.live, end.transit, k);
    }
  }

  lemma InvParts(st: State)
    requires Inv(st)
    ensures CallsInv(st)
  {
  }

  lemma OutcomeDef(st: State, l: Label, order: seq<Agent>)
    requires Enabled(st, l) && l.CancelStart? && Waiting(Cancelled(st, l), order)
    ensures Outcome(st, l, order) == AllCompleted(Cancelled(st, l), order)
  {
  }

  lemma OrderWaits(st: State, l: Label, order: seq<Agent>)
    requires CallsInv(st) && Enabled(st, l) && l.CancelStart?
    requires (set a | a in order) == st.calls.Keys && forall i, j :: 0 <= i < j < |order| ==> order[i] != order[j]
    ensures Waiting(Cancelled(st, l), order)
  {
    hide CallsInv, Split;
    CancelledIs(st, l);
    forall a | a in order ensures a in st.calls {
      assert a in (set b | b in order);
    }
    AllWaiting(st, order);
  }

  lemma OutcomeIs(st: State, l: Label, order: seq<Agent>)
    requires Enabled(st, l) && l.CancelStart? && Waiting(Cancelled(st, l), order)
    requires (set a | a in order) == st.calls.Keys
    ensures var end := Outcome(st, l, order);
            && end.calls == map[] && end.phase == st.phase && end.alive == st.alive
  {
    hide Split, Inserts, Replay;
    CancelledIs(st, l);
    AllCompletedKeys(Cancelled(st, l), order, {}, [], Key("", ""));
    forall a ensures a !in Outcome(st, l, order).calls {
      assert a in (set b | b in order) <==> a in order;
    }
  }

  /** With no call under way. */
  lemma InvAtRest(st: State)
    requires Inv(st) && st.calls == map[]
    ensures Replay({}, st.queue) <= st.subs
    ensures st.phase == Synced && st.alive ==> Replay(st.live, st.transit + st.queue) == st.subs
  {
    hide CallsInv, Replay;
    forall k ensures !Covered(st, k) {}
    TwiceIsOnce(st);
  }

  // ---------------------------------------------------------------- two runs that go wrong

  /** Some run that keeps calls on one key apart ends in this state. */
  ghost predicate Reached(st: State) {
    exists states, labels :: ApartRun(states, labels, st)
  }

  ghost predicate ApartRun(states: seq<State>, labels: seq<Label>, st: State) {
    && Run(states, labels) && states[|labels|] == st
    && forall i :: 0 <= i < |labels| ==> Apart(states[i], labels[i])
  }

  lemma JustStarted()
    ensures Reached(START)
  {
    assert ApartRun([START], [], START);
  }

  lemma OneMore(st: State, l: Label)
    requires Reached(st) && Enabled(st, l) && Apart(st, l)
    ensures Reached(After(st, l))
  {
    hide After, Enabled, Apart;
    var states, labels :| ApartRun(states, labels, st);
    assert ApartRun(states + [After(st, l)], labels + [l], After(st, l));
  }

  /** A whole subscribe call for one tag. */
  lemma Subscribed(st: State, topic: string, g: string)
    requires Reached(st) && st.calls == map[] && LockFree(st) && Split(g) == [g]
    ensures Reached(st.(subs := st.subs + {Key(topic, g)}, queue := st.queue + [Sub(topic, g)]))
  {
    hide Reached, Split;
    var s1 := After(st, SubStart(0, topic, g));
    var s2 := After(s1, SubTag(0));
    OneMore(st, SubStart(0, topic, g));
    OneMore(s1, SubTag(0));
    OneMore(s2, SubSend(0));
    assert After(s2, SubSend(0)).calls == st.calls;
  }

  /** A failed write, a reconnect and a whole re_subscribe for the only topic. */
  lemma Reconnected(st: State, topic: string, order: seq<string>)
    requires Reached(st) && st.calls == map[] && st.phase == Synced && st.queue != []
    requires Topics(st.subs) == {topic} && Iterates(order, TagsOf(st.subs, topic))
    ensures Reached(st.(queue := st.queue + [Sub(topic, Join(order))], phase := Synced, alive := true,
                        transit := [], arrived := false, live := {}))
  {
    hide Reached, Split, Join, Topics, TagsOf, Iterates;
    var s1 := After(st, Fails);
    var s2 := After(s1, Connect);
    var s3 := After(s2, ReStart);
    var s4 := After(s3, ReTopic(topic, order));
    OneMore(st, Fails);
    OneMore(s1, Connect);
    OneMore(s2, ReStart);
    OneMore(s3, ReTopic(topic, order));
    OneMore(s4, ReEnd);
  }

  lemma OneTag(g: string)
    requires !HasSeparator(g)
    ensures Split(g) == [g] && forall topic :: Keys(topic, g) == {Key(topic, g)}
  {
  }

  /** subscribe overtaken by a cancel of the same key: the client has forgotten the key, the cancel
      is queued first, and the session ends up subscribed for good. */
  lemma OverlapDiverges() returns (states: seq<State>, labels: seq<Label>)
    ensures Run(states, labels) && (forall l :: l in labels ==> !l.ReTopic?)
    ensures var st := states[|labels|];
            && st.phase == Synced && st.alive && st.calls == map[] && st.subs == {}
            && Replay(st.live, st.transit + st.queue) == {Key("t", "a")}
  {
    forall i ensures !SeparatorAt("a", i) {}
    OneTag("a");
    hide Split, Keys;
    var steps := [SubStart(0, "t", "a"), SubTag(0), CancelStart(1, "t", "a"), CancelSend(1), SubSend(0)];
    var s1 := After(START, steps[0]);
    var s2 := After(s1, steps[1]);
    assert Key("t", "a") in s2.subs;
    var s3 := After(s2, steps[2]);
    var s4 := After(s3, steps[3]);
    var s5 := After(s4, steps[4]);
    states, labels := [START, s1, s2, s3, s4, s5], steps;
    var c, p := Cancel("t", "a"), Sub("t", "a");
    assert s5.transit + s5.queue == [c, p];
    TwoPackets(c, p);
    assert Dealt({}, c) == {};
  }

  lemma TwoPackets(p: Packet, q: Packet)
    ensures Replay({}, [p, q]) == Dealt(Dealt({}, p), q)
  {
    ReplayLast({}, [p], q);
    assert [p] + [q] == [p, q];
    assert [p][1..] == [];
  }

  lemma BarFacts(order: seq<string>, subs: set<Key>)
    requires order == ["a|", "b"] && subs == {Key("t", "a|"), Key("t", "b")}
    ensures Split("a|") == ["a|"] && Split("b") == ["b"] && Join(order) == "a|||b"
    ensures Keys("t", "b") == {Key("t", "b")} && Keys("t", "a|||b") == {Key("t", "a"), Key("t", "|b")}
    ensures Topics(subs) == {"t"} && Iterates(order, TagsOf(subs, "t"))
  {
    TrailingBarChangesTags();
    forall i ensures !SeparatorAt("a|", i) && !SeparatorAt("b", i) {}
    OneTag("a|");
    OneTag("b");
    assert TagsOf(subs, "t") == {"a|", "b"} == (set g | g in order);
  }

  /** Subscribed to both tags, the first packet acknowledged. */
  lemma BothSubscribed(order: seq<string>, subs: set<Key>)
    requires order == ["a|", "b"] && subs == {Key("t", "a|"), Key("t", "b")}
    ensures Reached(START.(subs := subs, queue := [Sub("t", "b")], transit := [Sub("t", "a|")]))
  {
    BarFacts(order, subs);
    hide Reached, After, Enabled, Apart, Split, Keys, Join, TagsOf, Topics, Iterates;
    var p, r := Sub("t", "b"), Sub("t", "a|");
    JustStarted();
    Subscribed(START, "t", "a|");
    assert {} + {Key("t", "a|")} == {Key("t", "a|")} && [] + [r] == [r];
    Subscribed(START.(subs := {Key("t", "a|")}, queue := [r]), "t", "b");
    assert {Key("t", "a|")} + {Key("t", "b")} == subs && [r] + [p] == [r, p];
    FirstWritten(START.(subs := subs, queue := [r, p]), r, p);
  }

  /** Two tags of one topic, one of them ending in a bar, and a re_subscribe that meets that one
      first: the new session is subscribed to two tags that the client never named, and not to the
      one with the bar. */
  lemma TrailingBarDiverges() returns (st: State)
    ensures Reached(st) && st.phase == Synced && st.alive && st.calls == map[]
    ensures st.subs == {Key("t", "a|"), Key("t", "b")}
    ensures Replay(st.live, st.transit + st.queue) == {Key("t", "b"), Key("t", "a"), Key("t", "|b")}
  {
    var order := ["a|", "b"];
    var subs := {Key("t", "a|"), Key("t", "b")};
    BothSubscribed(order, subs);
    BarFacts(order, subs);
    hide Reached, Split, Keys, Join, TagsOf, Topics, Iterates, Replay, Touches;
    var p, q := Sub("t", "b"), Sub("t", "a|||b");
    Reconnected(START.(subs := subs, queue := [p], transit := [Sub("t", "a|")]), "t", order);
    assert [p] + [q] == [p, q];
    st := START.(subs := subs, queue := [p, q]);
    assert st.transit + st.queue == [p, q];
    TwoPackets(p, q);
  }

  lemma FirstWritten(st: State, p: Packet, q: Packet)
    requires Reached(st) && st.queue == [p, q] && st.transit == [] && st.phase == Synced && st.alive && !st.arrived
    ensures Reached(st.(queue := [q], transit := [p]))
  {
    hide Reached;
    OneMore(st, Arrive);
    OneMore(After(st, Arrive), Written);
    assert [] + [p] == [p] && [p, q][1..] == [q];
  }

  // ---------------------------------------------------------------- the session's side

  /** What the session really keeps: hashes. */
  function DealtHashes(hash: string -> int, keys: Registry.Keys, p: Packet): Registry.Keys {
    match p
    case Sub(topic, body) => Registry.KeysAdd(keys, hash(topic), Hashes(hash, Split(body)))
    case Cancel(topic, body) => Registry.KeysCancel(keys, hash(topic), Hashes(hash, Split(body)))
    case Other(_, _, _) => keys
  }

  ghost predicate Mirrors(hash: string -> int, keys: Registry.Keys, live: set<Key>) {
    forall k :: k in live <==> Registry.KeyIn(keys, hash(k.topic), hash(k.tag))
  }

  /** As long as no two names share a hash, the session's hashed record and the (topic, tag) pairs
      used above stay the same thing, packet after packet. */
  lemma HashedRecordMirrors(hash: string -> int, keys: Registry.Keys, live: set<Key>, p: Packet)
    requires forall a: string, b: string :: hash(a) == hash(b) ==> a == b
    requires Mirrors(hash, keys, live)
    ensures Mirrors(hash, DealtHashes(hash, keys, p), Dealt(live, p))
  {
    if !p.Other? {
      var hs := Hashes(hash, Split(p.body));
      forall k ensures k in Dealt(live, p) <==> Registry.KeyIn(DealtHashes(hash, keys, p), hash(k.topic), hash(k.tag)) {
        DealtIn(live, p, k);
        KeySetsAgree(hash, p.body, k.tag);
        Registry.KeysAddIn(keys, hash(p.topic), hs, hash(k.topic), hash(k.tag));
        Registry.KeysCancelIn(keys, hash(p.topic), hs, hash(k.topic), hash(k.tag));
      }
    }
  }
}