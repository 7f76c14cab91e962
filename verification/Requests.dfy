/** Requests and their responses, matched by id (include/rpc_client.hpp, the direct-response half of
    include/rpc_server.hpp). The network is as bad as it can be: any packet ever written may reach
    any session any number of times in any order (a request is written again after a reconnect),
    and any response ever written may reach the client any number of times. */
module Requests {
  type Call = nat
  type Sid = nat
  type Content = nat
  type Reply = nat

  /** One remote_call_async: the id allotted by bind_cb, what is sent, and whether a callback was
      given (nullptr is allowed). */
  datatype Info = Info(id: nat, content: Content, hasCb: bool)

  /** Control packets (subscribe, cancel, keep-alive) all carry id 0. */
  datatype Packet = Request(id: nat, content: Content) | Control
  datatype Response = Response(id: nat, reply: Reply)
  datatype Invocation = Invocation(id: nat, content: Content, reply: Reply)

  /** A session's reader coroutine. It waits inside coro_write until its response is written. */
  datatype Pc = Reading | Dealing(p: Packet) | Responding
  datatype Session = Session(msgId: nat, pc: Pc)
  datatype Fire = Fire(call: Call, reply: Reply)

  datatype State = State(nextId: nat, calls: map<Call, Info>, unsent: set<Call>, reqCb: map<nat, Call>,
                         wire: set<Packet>, sessions: map<Sid, Session>, handled: set<Invocation>,
                         responses: set<Response>, fired: seq<Fire>, allotted: map<nat, Call>)

  datatype Label =
    | Bind(c: Call, content: Content, hasCb: bool) | Send(c: Call) | SendControl
    | Connect(s: Sid) | Read(s: Sid, p: Packet) | Ignore(s: Sid) | Handle(s: Sid, reply: Reply) | Responded(s: Sid)
    | Receive(r: Response)

  predicate Enabled(st: State, l: Label) {
    match l
    case Bind(c, _, _) => c !in st.calls
    case Send(c) => c in st.unsent && c in st.calls
    case SendControl => true
    case Connect(s) => s !in st.sessions
    case Read(s, p) => p in st.wire && s in st.sessions && st.sessions[s].pc == Reading
    // a control packet, an unknown method, or a handler that throws: no response
    case Ignore(s) => s in st.sessions && st.sessions[s].pc.Dealing?
    case Handle(s, _) => s in st.sessions && st.sessions[s].pc.Dealing? && st.sessions[s].pc.p.Request?
    case Responded(s) => s in st.sessions && st.sessions[s].pc == Responding
    case Receive(r) => r in st.responses
  }

  function IdOf(p: Packet): nat {
    match p
    case Request(id, _) => id
    case Control => 0
  }

  function After(st: State, l: Label): State
    requires Enabled(st, l)
  {
    match l
    case Bind(c, content, hasCb) =>
      st.(nextId := st.nextId + 1,
          calls := st.calls[c := Info(st.nextId, content, hasCb)],
          unsent := st.unsent + {c},
          reqCb := if hasCb then st.reqCb[st.nextId := c] else st.reqCb,
          allotted := st.allotted[st.nextId := c])
    case Send(c) =>
      st.(wire := st.wire + {Request(st.calls[c].id, st.calls[c].content)}, unsent := st.unsent - {c})
    case SendControl => st.(wire := st.wire + {Control})
    case Connect(s) => st.(sessions := st.sessions[s := Session(0, Reading)])
    case Read(s, p) => st.(sessions := st.sessions[s := Session(IdOf(p), Dealing(p))])
    case Ignore(s) => st.(sessions := st.sessions[s := st.sessions[s].(pc := Reading)])
    // the response carries the session's msg_id_, not the packet's id
    case Handle(s, reply) =>
      var x := st.sessions[s];
      st.(handled := st.handled + {Invocation(x.pc.p.id, x.pc.p.content, reply)},
          responses := st.responses + {Response(x.msgId, reply)},
          sessions := st.sessions[s := x.(pc := Responding)])
    case Responded(s) => st.(sessions := st.sessions[s := st.sessions[s].(pc := Reading)])
    case Receive(r) =>
      if r.id !in st.reqCb then st
      else st.(reqCb := st.reqCb - {r.id}, fired := st.fired + [Fire(st.reqCb[r.id], r.reply)])
  }

  const START := State(1, map[], {}, map[], {}, map[], {}, {}, [], map[])

  /** Ids name calls: each allotted id belongs to one call, and id 0 to none. */
  ghost predicate IdsInv(st: State) {
    && st.nextId >= 1
    && (forall id :: id in st.allotted ==> 1 <= id < st.nextId)
    && (forall id :: id in st.allotted ==> st.allotted[id] in st.calls && st.calls[st.allotted[id]].id == id)
    && (forall c :: c in st.calls ==> st.calls[c].id in st.allotted && st.allotted[st.calls[c].id] == c)
    && (forall id :: id in st.reqCb ==>
              id in st.allotted && st.reqCb[id] == st.allotted[id] && st.calls[st.reqCb[id]].hasCb)
  }

  predicate Sent(st: State, id: nat, content: Content) {
    id in st.allotted && st.allotted[id] in st.calls && st.calls[st.allotted[id]].content == content
  }

  ghost predicate WireInv(st: State) {
    && (forall p :: p in st.wire && p.Request? ==> Sent(st, p.id, p.content))
    && (forall s :: s in st.sessions && st.sessions[s].pc.Dealing? ==>
          st.sessions[s].pc.p in st.wire && st.sessions[s].msgId == IdOf(st.sessions[s].pc.p))
    && (forall r :: r in st.responses ==>
          r.id in st.allotted && st.allotted[r.id] in st.calls
          && Invocation(r.id, st.calls[st.allotted[r.id]].content, r.reply) in st.handled)
  }

  ghost predicate FireInv(st: State) {
    && (forall i :: 0 <= i < |st.fired| ==> FireOk(st, st.fired[i]))
    && (forall i, j :: 0 <= i < j < |st.fired| ==> st.fired[i].call != st.fired[j].call)
  }

  /** A callback that has run was given, is gone from the map, and got what the handler returned for
      this very request. */
  predicate FireOk(st: State, f: Fire) {
    && f.call in st.calls && st.calls[f.call].hasCb
    && st.calls[f.call].id !in st.reqCb
    && Invocation(st.calls[f.call].id, st.calls[f.call].content, f.reply) in st.handled
  }

  ghost predicate HasFired(st: State, c: Call) {
    exists k :: 0 <= k < |st.fired| && st.fired[k].call == c
  }

  /** Nothing is forgotten: a call given a callback still has it in the map or it has run, and a call
      made is still to be sent or is on the wire. */
  ghost predicate KeptInv(st: State) {
    && st.unsent <= st.calls.Keys
    && forall c :: c in st.calls ==>
         && (st.calls[c].hasCb ==> st.calls[c].id in st.reqCb || HasFired(st, c))
         && (c in st.unsent || Request(st.calls[c].id, st.calls[c].content) in st.wire)
  }

  ghost predicate Inv(st: State) {
    IdsInv(st) && WireInv(st) && FireInv(st) && KeptInv(st)
  }

  lemma IdsStep(st: State, l: Label)
    requires IdsInv(st) && Enabled(st, l)
    ensures IdsInv(After(st, l))
  {
  }

  lemma WireStep(st: State, l: Label)
    requires IdsInv(st) && WireInv(st) && Enabled(st, l)
    ensures WireInv(After(st, l))
  {
    var st' := After(st, l);
    if l.Handle? {
      var p := st.sessions[l.s].pc.p;
      assert Sent(st, p.id, p.content);
    }
    forall p | p in st'.wire && p.Request? ensures Sent(st', p.id, p.content) {
      assert p in st.wire ==> Sent(st, p.id, p.content);
    }
  }

  lemma FireStep(st: State, l: Label)
    requires Inv(st) && Enabled(st, l)
    ensures FireInv(After(st, l))
  {
    var st' := After(st, l);
    forall i | 0 <= i < |st'.fired| ensures FireOk(st', st'.fired[i]) {
      if i < |st.fired| {
        assert FireOk(st, st.fired[i]);
      }
    }
    if l.Receive? && l.r.id in st.reqCb {
      forall i | 0 <= i < |st.fired| ensures st.fired[i].call != st.reqCb[l.r.id] {
        assert FireOk(st, st.fired[i]);
      }
    }
  }

  lemma KeptStep(st: State, l: Label)
    requires Inv(st) && Enabled(st, l)
    ensures KeptInv(After(st, l))
  {
    hide WireInv, FireInv, FireOk, IdOf;
    var st' := After(st, l);
    forall c | c in st'.calls && st'.calls[c].hasCb ensures st'.calls[c].id in st'.reqCb || HasFired(st', c) {
      if c in st.calls {
        if HasFired(st, c) {
          var k :| 0 <= k < |st.fired| && st.fired[k].call == c;
          assert st'.fired[k].call == c;
        } else if st.calls[c].id !in st'.reqCb {
          assert st'.fired[|st.fired|].call == c;
        }
      }
    }
  }

  ghost predicate Run(states: seq<State>, labels: seq<Label>) {
    && |states| == |labels| + 1 && states[0] == START
    && forall i :: 0 <= i < |labels| ==> Enabled(states[i], labels[i]) && states[i + 1] == After(states[i], labels[i])
  }

  lemma {:induction false} InvAlways(states: seq<State>, labels: seq<Label>, i: nat)
    requires Run(states, labels) && i < |states|
    ensures Inv(states[i])
  {
    hide After, Enabled;
    if i == 0 {
      assert Inv(START);
    } else {
      InvAlways(states, labels, i - 1);
      IdsStep(states[i - 1], labels[i - 1]);
      WireStep(states[i - 1], labels[i - 1]);
      FireStep(states[i - 1], labels[i - 1]);
      KeptStep(states[i - 1], labels[i - 1]);
      assert states[i - 1 + 1] == states[i];
    }
  }

  /** Matching. In every run each callback fires at most once, only if one was given, and only with
      what the handler returned for the request of the very call that the id was allotted to. */
  lemma CallbacksMatch(states: seq<State>, labels: seq<Label>, i: nat, k: nat)
    requires Run(states, labels) && i < |states| && k < |states[i].fired|
    ensures var st, f := states[i], states[i].fired[k];
            && f.call in st.calls && st.calls[f.call].hasCb
            && Invocation(st.calls[f.call].id, st.calls[f.call].content, f.reply) in st.handled
            && (forall j :: 0 <= j < |st.fired| && st.fired[j].call == f.call ==> j == k)
  {
    InvAlways(states, labels, i);
    assert FireOk(states[i], states[i].fired[k]);
  }

  /** Two calls never share an id, and no response ever carries the control packets' id 0. */
  lemma IdsAreUnique(states: seq<State>, labels: seq<Label>, i: nat, c: Call, d: Call)
    requires Run(states, labels) && i < |states| && c in states[i].calls && d in states[i].calls
    ensures states[i].calls[c].id == states[i].calls[d].id <==> c == d
    ensures forall r :: r in states[i].responses ==> r.id >= 1
  {
    InvAlways(states, labels, i);
  }

  /** A repeated response, or one to a call without a callback, changes nothing. */
  lemma RepeatsAreIgnored(states: seq<State>, labels: seq<Label>, i: nat, r: Response)
    requires Run(states, labels) && i < |states| && r in states[i].responses
    requires var st := states[i];
             (exists k :: 0 <= k < |st.fired| && st.fired[k].call in st.calls && st.calls[st.fired[k].call].id == r.id)
             || (r.id in st.allotted && st.allotted[r.id] in st.calls && !st.calls[st.allotted[r.id]].hasCb)
    ensures After(states[i], Receive(r)) == states[i]
  {
    InvAlways(states, labels, i);
    var st := states[i];
    if exists k :: 0 <= k < |st.fired| && st.fired[k].call in st.calls && st.calls[st.fired[k].call].id == r.id {
      var k :| 0 <= k < |st.fired| && st.fired[k].call in st.calls && st.calls[st.fired[k].call].id == r.id;
      assert FireOk(st, st.fired[k]);
    }
  }

  /** The other half of matching: a response to a call with a callback is never lost on it. Once it is
      received the callback has run exactly once, and it is this response's reply that it got if it
      had not run before. */
  lemma ResponsesFire(states: seq<State>, labels: seq<Label>, i: nat, r: Response)
    requires Run(states, labels) && i < |labels| && labels[i] == Receive(r)
    ensures var st, st' := states[i], states[i + 1];
            && r.id in st.allotted && st.allotted[r.id] in st.calls
            && var c := st.allotted[r.id];
               st.calls[c].hasCb ==>
                 && (exists k :: 0 <= k < |st'.fired| && st'.fired[k].call == c
                                 && forall j :: 0 <= j < |st'.fired| && st'.fired[j].call == c ==> j == k)
                 && ((forall k :: 0 <= k < |st.fired| ==> st.fired[k].call != c) ==>
                       st'.fired == st.fired + [Fire(c, r.reply)])
                 && ((exists k :: 0 <= k < |st.fired| && st.fired[k].call == c) ==> st' == st)
  {
    hide Enabled;
    InvAlways(states, labels, i);
    InvAlways(states, labels, i + 1);
    var st, st' := states[i], states[i + 1];
    assert r in st.responses by { Received(states, labels, i, r); }
    var c := st.allotted[r.id];
    if st.calls[c].hasCb {
      assert st'.calls[c].hasCb && HasFired(st', c);
      if k :| 0 <= k < |st.fired| && st.fired[k].call == c {
        assert FireOk(st, st.fired[k]);
      }
    }
  }

  lemma Received(states: seq<State>, labels: seq<Label>, i: nat, r: Response)
    requires Run(states, labels) && i < |labels| && labels[i] == Receive(r)
    ensures r in states[i].responses
  {
  }

  /** A handler that returns leaves a response with the id of the very request its session read, and
      with the reply it returned. */
  lemma HandlersAnswer(states: seq<State>, labels: seq<Label>, i: nat, s: Sid, reply: Reply)
    requires Run(states, labels) && i < |labels| && labels[i] == Handle(s, reply)
    ensures var st, st' := states[i], states[i + 1];
            && s in st.sessions && st.sessions[s].pc.Dealing? && st.sessions[s].pc.p.Request?
            && var p := st.sessions[s].pc.p;
               && p in st.wire
               && st'.responses == st.responses + {Response(p.id, reply)}
               && st'.handled == st.handled + {Invocation(p.id, p.content, reply)}
  {
    InvAlways(states, labels, i);
  }

  // ---------------------------------------------------------------- nothing is lost

  /** These labels can be taken one after another and lead from st to end. */
  ghost predicate Leads(st: State, labels: seq<Label>, end: State)
    decreases |labels|
  {
    if labels == [] then end == st
    else Enabled(st, labels[0]) && Leads(After(st, labels[0]), labels[1..], end)
  }

  lemma LeadsOn(st: State, l: Label, labels: seq<Label>, end: State)
    requires Enabled(st, l) && Leads(After(st, l), labels, end)
    ensures Leads(st, [l] + labels, end)
  {
    assert ([l] + labels)[1..] == labels;
  }

  lemma {:induction false} Above(taken: set<Sid>) returns (s: Sid)
    ensures forall t :: t in taken ==> t < s
    decreases taken
  {
    s := 0;
    if taken != {} {
      var top :| top in taken;
      var rest := taken - {top};
      s := Above(rest);
      s := if s <= top then top + 1 else s;
      assert forall t :: t in taken ==> t == top || t in rest;
    }
  }

  /** Whatever has happened, a callback that has not run can still run, with any reply a handler may
      give to its call: the request can reach a session, be handled, and be answered. */
  lemma CanStillFire(states: seq<State>, labels: seq<Label>, i: nat, c: Call, reply: Reply)
    requires Run(states, labels) && i < |states|
    requires c in states[i].calls && states[i].calls[c].hasCb && !HasFired(states[i], c)
    ensures exists next, end :: Leads(states[i], next, end) && end.fired == states[i].fired + [Fire(c, reply)]
  {
    InvAlways(states, labels, i);
    if c in states[i].unsent {
      var sent := After(states[i], Send(c));
      SentCanFire(sent, c, reply);
      var next, end :| Leads(sent, next, end) && end.fired == sent.fired + [Fire(c, reply)];
      LeadsOn(states[i], Send(c), next, end);
    } else {
      SentCanFire(states[i], c, reply);
    }
  }

  lemma SentCanFire(st: State, c: Call, reply: Reply)
    requires c in st.calls && st.calls[c].id in st.reqCb && st.reqCb[st.calls[c].id] == c
    requires Request(st.calls[c].id, st.calls[c].content) in st.wire
    ensures exists next, end :: Leads(st, next, end) && end.fired == st.fired + [Fire(c, reply)]
  {
    var s := Above(st.sessions.Keys);
    var p := Request(st.calls[c].id, st.calls[c].content);
    var r := Response(p.id, reply);
    var s1 := After(st, Connect(s));
    var s2 := After(s1, Read(s, p));
    var s3 := After(s2, Handle(s, reply));
    var end := After(s3, Receive(r));
    assert Leads(end, [], end);
    LeadsOn(s3, Receive(r), [], end);
    LeadsOn(s2, Handle(s, reply), [Receive(r)] + [], end);
    LeadsOn(s1, Read(s, p), [Handle(s, reply)] + ([Receive(r)] + []), end);
    LeadsOn(st, Connect(s), [Read(s, p)] + ([Handle(s, reply)] + ([Receive(r)] + [])), end);
  }
}
