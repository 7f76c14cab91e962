/** The server as a transition system: one label per critical section of sub_conn_mtx_ or per
    uninterrupted stretch of a session's own thread. A session's reader and timer coroutines share
    one thread, so at most one update per session is under way; everything else interleaves freely:
    other sessions, and one publisher at a time, which holds the registry's mutex from its first
    look-up to its last dispatch. */
module ServerProtocol {
  import opened Collections
  import opened Registry

  type Sid = nat

  /** What a session's thread is in the middle of. */
  datatype Act =
    | Idle
    | Subbing(t: Hash, tags: seq<Hash>)                  // registered, own record not yet updated
    | Cancelling(t: Hash, tags: seq<Hash>, done: nat)    // the first `done` tags are unregistered
    | Freeing(todo: set<(Hash, Hash)>, last: bool)       // free_rc; `last` when the reader will end

  /** `ended`: the reader coroutine is over. `handling`: it waits inside a request handler.
      `history`: every dispatch ever put into this session's publish queue. */
  datatype Session = Session(keys: Keys, act: Act, ended: bool, handling: bool, enabled: bool, history: seq<nat>)

  /** One dispatch inside a publish call: who was registered, who got it, who was passed over. */
  datatype Dispatch = Dispatch(pub: nat, t: Hash, g: Hash, verify: bool, seen: Registry<Sid>, conns: set<Sid>,
                               delivered: set<Sid>, skipped: set<Sid>)

  datatype Phase = Star | Tag | Done
  datatype Publisher = Publisher(pub: nat, t: Hash, star: Hash, g: Hash, verify: bool, phase: Phase, todo: set<Sid>)

  datatype State = State(reg: Registry<Sid>, sessions: map<Sid, Session>, lock: Option<Publisher>,
                         log: seq<Dispatch>, pubs: nat)

  datatype Label =
    | Accept(s: Sid)
    | SubStart(s: Sid, t: Hash, tags: seq<Hash>) | SubEnd(s: Sid)
    | CancelStart(s: Sid, t: Hash, tags: seq<Hash>) | CancelOne(s: Sid) | CancelEnd(s: Sid)
    | FreeStart(s: Sid, last: bool) | FreeOne(s: Sid, t: Hash, g: Hash) | FreeEnd(s: Sid)
    | HandlerStart(s: Sid) | HandlerEnd(s: Sid) | Enable(s: Sid, on: bool)
    | PubStart(t: Hash, star: Hash, g: Hash, verify: bool) | PubOpen | PubVisit(s: Sid) | PubEnd

  predicate CanDeal(st: State, s: Sid) {
    s in st.sessions && st.sessions[s].act == Idle && !st.sessions[s].ended && !st.sessions[s].handling
  }

  predicate Enabled(st: State, l: Label) {
    match l
    case Accept(s) => s !in st.sessions
    case SubStart(s, t, tags) => CanDeal(st, s) && st.lock == None && tags != []
    case SubEnd(s) => s in st.sessions && st.sessions[s].act.Subbing?
    case CancelStart(s, t, tags) => CanDeal(st, s) && tags != []
    case CancelOne(s) =>
      s in st.sessions && st.sessions[s].act.Cancelling? && st.sessions[s].act.done < |st.sessions[s].act.tags|
      && st.lock == None
    case CancelEnd(s) =>
      s in st.sessions && st.sessions[s].act.Cancelling? && st.sessions[s].act.done == |st.sessions[s].act.tags|
    // the reader's free_rc ends it; the timer's may come at any time, also inside a handler's wait,
    // before a read that had completed is dealt with, and after the reader has ended
    case FreeStart(s, last) =>
      s in st.sessions && st.sessions[s].act == Idle && (last ==> CanDeal(st, s))
    case FreeOne(s, t, g) =>
      s in st.sessions && st.sessions[s].act.Freeing? && (t, g) in st.sessions[s].act.todo && st.lock == None
    case FreeEnd(s) =>
      s in st.sessions && st.sessions[s].act.Freeing? && st.sessions[s].act.todo == {}
    case HandlerStart(s) => CanDeal(st, s)
    case HandlerEnd(s) => s in st.sessions && st.sessions[s].act == Idle && st.sessions[s].handling
    case Enable(s, on) => s in st.sessions
    case PubStart(t, star, g, verify) => st.lock == None && t in st.reg
    case PubOpen =>
      st.lock.Some? && st.lock.value.todo == {} && st.lock.value.phase != Done && st.lock.value.t in st.reg
    case PubVisit(s) => st.lock.Some? && s in st.lock.value.todo && s in st.sessions && st.log != []
    case PubEnd => st.lock.Some? && st.lock.value.todo == {} && st.lock.value.phase == Done
  }

  function Update(st: State, s: Sid, x: Session): State {
    st.(sessions := st.sessions[s := x])
  }

  function Opened(st: State): State
    requires Enabled(st, PubOpen)
  {
    var p := st.lock.value;
    var h := if p.phase == Star then p.star else p.g;
    var next := if p.phase == Star then Tag else Done;
    var conns := st.reg[p.t];
    if h !in conns then st.(lock := Some(p.(phase := next)))
    else
      st.(lock := Some(p.(phase := next, todo := conns[h])),
          log := st.log + [Dispatch(p.pub, p.t, h, p.verify, st.reg, conns[h], {}, {})])
  }

  function Visited(st: State, s: Sid): State
    requires Enabled(st, PubVisit(s))
  {
    var p, x, i := st.lock.value, st.sessions[s], |st.log| - 1;
    var d := st.log[i];
    var left := st.(lock := Some(p.(todo := p.todo - {s})));
    if !p.verify || x.enabled then
      Update(left.(log := st.log[i := d.(delivered := d.delivered + {s})]), s, x.(history := x.history + [i]))
    else
      left.(log := st.log[i := d.(skipped := d.skipped + {s})])
  }

  function After(st: State, l: Label): State
    requires Enabled(st, l)
  {
    match l
    case Accept(s) => Update(st, s, Session(map[], Idle, false, false, false, []))
    case SubStart(s, t, tags) =>
      Update(st.(reg := Add(st.reg, t, tags, s)), s, st.sessions[s].(act := Subbing(t, tags)))
    case SubEnd(s) =>
      var x := st.sessions[s];
      Update(st, s, x.(keys := KeysAdd(x.keys, x.act.t, x.act.tags), act := Idle))
    case CancelStart(s, t, tags) => Update(st, s, st.sessions[s].(act := Cancelling(t, tags, 0)))
    case CancelOne(s) =>
      var x := st.sessions[s];
      Update(st.(reg := Remove(st.reg, x.act.t, x.act.tags[x.act.done], s)), s,
             x.(act := Cancelling(x.act.t, x.act.tags, x.act.done + 1)))
    case CancelEnd(s) =>
      var x := st.sessions[s];
      Update(st, s, x.(keys := KeysCancel(x.keys, x.act.t, x.act.tags), act := Idle))
    case FreeStart(s, last) =>
      Update(st, s, st.sessions[s].(act := Freeing(Pairs(st.sessions[s].keys), last)))
    case FreeOne(s, t, g) =>
      var x := st.sessions[s];
      Update(st.(reg := Remove(st.reg, t, g, s)), s, x.(act := Freeing(x.act.todo - {(t, g)}, x.act.last)))
    case FreeEnd(s) =>
      var x := st.sessions[s];
      Update(st, s, x.(keys := map[], act := Idle, ended := x.ended || x.act.last))
    case HandlerStart(s) => Update(st, s, st.sessions[s].(handling := true))
    case HandlerEnd(s) => Update(st, s, st.sessions[s].(handling := false))
    case Enable(s, on) => Update(st, s, st.sessions[s].(enabled := on))
    case PubStart(t, star, g, verify) =>
      st.(lock := Some(Publisher(st.pubs, t, star, g, verify, Star, {})), pubs := st.pubs + 1)
    case PubOpen => Opened(st)
    case PubVisit(s) => Visited(st, s)
    case PubEnd => st.(lock := None)
  }

  const START := State(map[], map[], None, [], 0)

  // ---------------------------------------------------------------- the two indexes

  /** Which registrations a session should have, given its own record and what it is doing. */
  predicate Expected(x: Session, t: Hash, g: Hash) {
    match x.act
    case Idle => KeyIn(x.keys, t, g)
    case Subbing(tt, tags) => KeyIn(x.keys, t, g) || (t == tt && g in tags)
    case Cancelling(tt, tags, done) => KeyIn(x.keys, t, g) && !(done <= |tags| && t == tt && g in tags[..done])
    case Freeing(todo, _) => (t, g) in todo
  }

  ghost predicate SessionOk(x: Session) {
    && KeysPruned(x.keys)
    && (x.ended ==> x.keys == map[] && (x.act == Idle || (x.act.Freeing? && x.act.todo == {})))
    && (x.act.Subbing? ==> x.act.tags != [])
    && (x.act.Cancelling? ==> x.act.done <= |x.act.tags|)
    && (x.act.Freeing? ==> x.act.todo <= Pairs(x.keys))
  }

  predicate Should(st: State, s: Sid, t: Hash, g: Hash) {
    s in st.sessions && Expected(st.sessions[s], t, g)
  }

  ghost predicate IndexInv(st: State) {
    && Pruned(st.reg)
    && (forall s :: s in st.sessions ==> SessionOk(st.sessions[s]))
    && (forall s, t, g :: Has(st.reg, t, g, s) <==> Should(st, s, t, g))
  }

  /** A step of one session keeps the indexes in step if it changes the registry exactly where its
      own expectations change. */
  lemma OneSession(st: State, reg: Registry<Sid>, s: Sid, x: Session)
    requires IndexInv(st) && Pruned(reg) && SessionOk(x)
    requires forall t, g, r :: Has(reg, t, g, r) <==> if r == s then Expected(x, t, g) else Has(st.reg, t, g, r)
    ensures IndexInv(Update(st.(reg := reg), s, x))
  {
    var st' := Update(st.(reg := reg), s, x);
    forall r, t, g ensures Has(st'.reg, t, g, r) <==> Should(st', r, t, g) {
      assert Has(st.reg, t, g, r) <==> Should(st, r, t, g);
    }
  }

  lemma IndexSub(st: State, s: Sid, l: Label)
    requires IndexInv(st) && Enabled(st, l) && (l.SubStart? || l.SubEnd?) && l.s == s
    ensures IndexInv(After(st, l))
  {
    var x := st.sessions[s];
    if l.SubStart? {
      AddPruned(st.reg, l.t, l.tags, s);
      forall t, g, r
        ensures Has(Add(st.reg, l.t, l.tags, s), t, g, r)
           <==> if r == s then Expected(x.(act := Subbing(l.t, l.tags)), t, g) else Has(st.reg, t, g, r)
      {
        AddHas(st.reg, l.t, l.tags, s, t, g, r);
        assert Has(st.reg, t, g, r) <==> Should(st, r, t, g);
      }
      OneSession(st, Add(st.reg, l.t, l.tags, s), s, x.(act := Subbing(l.t, l.tags)));
    } else {
      KeysStayPruned(x.keys, x.act.t, x.act.tags);
      var y := x.(keys := KeysAdd(x.keys, x.act.t, x.act.tags), act := Idle);
      forall t, g, r ensures Has(st.reg, t, g, r) <==> if r == s then Expected(y, t, g) else Has(st.reg, t, g, r) {
        KeysAddIn(x.keys, x.act.t, x.act.tags, t, g);
        assert Has(st.reg, t, g, r) <==> Should(st, r, t, g);
      }
      OneSession(st, st.reg, s, y);
    }
  }

  lemma IndexCancel(st: State, s: Sid, l: Label)
    requires IndexInv(st) && Enabled(st, l) && (l.CancelStart? || l.CancelOne? || l.CancelEnd?) && l.s == s
    ensures IndexInv(After(st, l))
  {
    var x, y := st.sessions[s], After(st, l).sessions[s];
    var reg := After(st, l).reg;
    if l.CancelOne? {
      RemovePruned(st.reg, x.act.t, x.act.tags[x.act.done], s);
    }
    if l.CancelEnd? {
      KeysStayPruned(x.keys, x.act.t, x.act.tags);
    }
    forall t, g, r ensures Has(reg, t, g, r) <==> if r == s then Expected(y, t, g) else Has(st.reg, t, g, r) {
      assert Has(st.reg, t, g, r) <==> Should(st, r, t, g);
      if l.CancelOne? {
        RemoveHas(st.reg, x.act.t, x.act.tags[x.act.done], s, t, g, r);
        assert x.act.tags[..x.act.done + 1] == x.act.tags[..x.act.done] + [x.act.tags[x.act.done]];
      } else if l.CancelEnd? {
        KeysCancelIn(x.keys, x.act.t, x.act.tags, t, g);
        assert x.act.tags[..x.act.done] == x.act.tags;
      }
    }
    OneSession(st, reg, s, y);
  }

  lemma IndexFree(st: State, s: Sid, l: Label)
    requires IndexInv(st) && Enabled(st, l) && (l.FreeStart? || l.FreeOne? || l.FreeEnd?) && l.s == s
    ensures IndexInv(After(st, l))
  {
    var x, y := st.sessions[s], After(st, l).sessions[s];
    var reg := After(st, l).reg;
    if l.FreeOne? {
      RemovePruned(st.reg, l.t, l.g, s);
    }
    forall t, g, r ensures Has(reg, t, g, r) <==> if r == s then Expected(y, t, g) else Has(st.reg, t, g, r) {
      assert Has(st.reg, t, g, r) <==> Should(st, r, t, g);
      if l.FreeOne? {
        RemoveHas(st.reg, l.t, l.g, s, t, g, r);
      }
    }
    OneSession(st, reg, s, y);
  }

  lemma IndexStep(st: State, l: Label)
    requires IndexInv(st) && Enabled(st, l)
    ensures IndexInv(After(st, l))
  {
    match l
    case SubStart(s, _, _) => IndexSub(st, s, l);
    case SubEnd(s) => IndexSub(st, s, l);
    case CancelStart(s, _, _) => IndexCancel(st, s, l);
    case CancelOne(s) => IndexCancel(st, s, l);
    case CancelEnd(s) => IndexCancel(st, s, l);
    case FreeStart(s, _) => IndexFree(st, s, l);
    case FreeOne(s, _, _) => IndexFree(st, s, l);
    case FreeEnd(s) => IndexFree(st, s, l);
    case _ => IndexOther(st, l);
  }

  lemma IndexOther(st: State, l: Label)
    requires IndexInv(st) && Enabled(st, l)
    requires l.Accept? || l.HandlerStart? || l.HandlerEnd? || l.Enable? || l.PubStart? || l.PubOpen?
             || l.PubVisit? || l.PubEnd?
    ensures IndexInv(After(st, l))
  {
    var st' := After(st, l);
    RecordsStay(st, l);
    hide After, Enabled, Has, Pruned;
    forall s, t, g ensures Has(st'.reg, t, g, s) <==> Should(st', s, t, g) {
      assert Has(st.reg, t, g, s) <==> Should(st, s, t, g);
    }
  }

  /** Everybody keeps record and update; whoever is new has an empty record. */
  lemma RecordsStay(st: State, l: Label)
    requires Enabled(st, l)
    requires l.Accept? || l.HandlerStart? || l.HandlerEnd? || l.Enable? || l.PubStart? || l.PubOpen?
             || l.PubVisit? || l.PubEnd?
    ensures var st' := After(st, l);
            && st'.reg == st.reg && st.sessions.Keys <= st'.sessions.Keys
            && forall s :: s in st'.sessions ==>
                 var x := st'.sessions[s];
                 if s in st.sessions then
                   x.keys == st.sessions[s].keys && x.act == st.sessions[s].act && x.ended == st.sessions[s].ended
                 else x.keys == map[] && x.act == Idle && !x.ended
  {
  }

  // ---------------------------------------------------------------- runs

  /** A run: every label enabled, one state after another, from the empty server. */
  ghost predicate Run(states: seq<State>, labels: seq<Label>) {
    && |states| == |labels| + 1 && states[0] == START
    && forall i :: 0 <= i < |labels| ==> Enabled(states[i], labels[i]) && states[i + 1] == After(states[i], labels[i])
  }

  lemma {:induction false} IndexAlways(states: seq<State>, labels: seq<Label>, i: nat)
    requires Run(states, labels) && i < |states|
    ensures IndexInv(states[i])
  {
    if i == 0 {
      forall s, t, g ensures Has(START.reg, t, g, s) <==> Should(START, s, t, g) {}
    } else {
      IndexAlways(states, labels, i - 1);
      IndexStep(states[i - 1], labels[i - 1]);
      assert states[i - 1 + 1] == states[i];
    }
  }

  /** The two indexes agree. In every state of every run: a session that is not inside an update is
      registered under exactly the keys of its own record; one that is inside a subscribe or cancel
      differs at most in that command's tags; one being freed is registered under part of its keys;
      and nothing empty is kept. */
  lemma TwoIndexesAgree(states: seq<State>, labels: seq<Label>, i: nat, s: Sid, t: Hash, g: Hash)
    requires Run(states, labels) && i < |states| && s in states[i].sessions
    ensures var st, x := states[i], states[i].sessions[s];
            && (x.act == Idle ==> (Has(st.reg, t, g, s) <==> KeyIn(x.keys, t, g)))
            && (x.act.Subbing? || x.act.Cancelling? ==>
                  Has(st.reg, t, g, s) != KeyIn(x.keys, t, g) ==> t == x.act.t && g in x.act.tags)
            && (x.act.Freeing? ==> Has(st.reg, t, g, s) ==> KeyIn(x.keys, t, g))
            && Pruned(st.reg) && KeysPruned(x.keys)
  {
    IndexAlways(states, labels, i);
    var st := states[i];
    assert SessionOk(st.sessions[s]);
    assert Has(st.reg, t, g, s) <==> Should(st, s, t, g);
  }

  /** Registered sessions are live: a session whose reader has ended is registered nowhere. */
  lemma EndedIsUnregistered(states: seq<State>, labels: seq<Label>, i: nat, s: Sid, t: Hash, g: Hash)
    requires Run(states, labels) && i < |states| && Has(states[i].reg, t, g, s)
    ensures s in states[i].sessions && !states[i].sessions[s].ended
  {
    IndexAlways(states, labels, i);
    assert Should(states[i], s, t, g);
    assert SessionOk(states[i].sessions[s]);
  }

  // ---------------------------------------------------------------- what the commands do

  /** A step as one session sees it: its record changes when its commands are through, by exactly the
      tags they name; it ends when the free_rc of its reader is through; and check_verify's switch is
      moved by nothing but Enable. */
  lemma SessionStep(st: State, l: Label, s: Sid, t: Hash, g: Hash)
    requires Enabled(st, l) && s in st.sessions
    ensures s in After(st, l).sessions
    ensures var x, y := st.sessions[s], After(st, l).sessions[s];
            && (l == SubEnd(s) ==> (KeyIn(y.keys, t, g) <==> KeyIn(x.keys, t, g) || (t == x.act.t && g in x.act.tags)))
            && (l == CancelEnd(s) ==>
                  (KeyIn(y.keys, t, g) <==> KeyIn(x.keys, t, g) && !(t == x.act.t && g in x.act.tags)))
            && (l == FreeEnd(s) ==> y.keys == map[])
            && (l != SubEnd(s) && l != CancelEnd(s) && l != FreeEnd(s) ==> y.keys == x.keys)
            && (y.ended <==> x.ended || (l == FreeEnd(s) && x.act.last))
            && y.enabled == if l.Enable? && l.s == s then l.on else x.enabled
  {
    hide KeysAdd, KeysCancel, KeyIn, Add, Remove, Pairs;
    var x := st.sessions[s];
    if l == SubEnd(s) {
      KeysAddIn(x.keys, x.act.t, x.act.tags, t, g);
    } else if l == CancelEnd(s) {
      KeysCancelIn(x.keys, x.act.t, x.act.tags, t, g);
    }
  }

  /** A session that is accepted has no keys and no publications and is disabled for check_verify. */
  lemma AcceptedIsBlank(states: seq<State>, labels: seq<Label>, i: nat, s: Sid)
    requires Run(states, labels) && i < |labels| && labels[i] == Accept(s)
    ensures s !in states[i].sessions && s in states[i + 1].sessions
    ensures var st, x := states[i + 1], states[i + 1].sessions[s];
            && !x.enabled && !x.ended && !x.handling && x.keys == map[] && x.history == [] && x.act == Idle
            && CanDeal(st, s) && forall t, g :: !Has(st.reg, t, g, s)
  {
    IndexAlways(states, labels, i + 1);
    var st := states[i + 1];
    forall t, g ensures !Has(st.reg, t, g, s) {
      assert Has(st.reg, t, g, s) <==> Should(st, s, t, g);
    }
  }

  lemma {:induction false} EndedStays(states: seq<State>, labels: seq<Label>, i: nat, j: nat, s: Sid)
    requires Run(states, labels) && i <= j < |states|
    requires s in states[i].sessions && states[i].sessions[s].ended
    ensures s in states[j].sessions && states[j].sessions[s].ended
  {
    hide After, Enabled, KeyIn;
    if i < j {
      EndedStays(states, labels, i, j - 1, s);
      SessionStep(states[j - 1], labels[j - 1], s, 0, 0);
      assert states[j - 1 + 1] == states[j];
    }
  }

  /** The reader's own free_rc is the session's end: from then on it deals with nothing, and it is
      registered nowhere. */
  lemma FreedForGood(states: seq<State>, labels: seq<Label>, i: nat, j: nat, s: Sid)
    requires Run(states, labels) && i < j < |states| && labels[i] == FreeEnd(s) && states[i].sessions[s].act.last
    ensures s in states[j].sessions && states[j].sessions[s].ended && !CanDeal(states[j], s)
    ensures forall t, g :: !Has(states[j].reg, t, g, s)
  {
    SessionStep(states[i], labels[i], s, 0, 0);
    assert states[i + 1] == After(states[i], labels[i]);
    EndedStays(states, labels, i + 1, j, s);
    forall t, g ensures !Has(states[j].reg, t, g, s) {
      if Has(states[j].reg, t, g, s) {
        EndedIsUnregistered(states, labels, j, s, t, g);
      }
    }
  }

  // ---------------------------------------------------------------- every command can be carried out

  /** These labels can be taken one after another and lead from st to end. */
  ghost predicate Leads(st: State, labels: seq<Label>, end: State)
    decreases |labels|
  {
    if labels == [] then end == st
    else Enabled(st, labels[0]) && Leads(After(st, labels[0]), labels[1..], end)
  }

  lemma LeadsOn(st: State, l: Label, labels: seq<Label>, end: State)
    requires Enabled(st, l) && Leads(After(st, l), labels, end)
    ensures Leads(st, [l] + labels, end)
  {
    hide Enabled, After;
    assert ([l] + labels)[1..] == labels;
  }

  /** Only this session has moved. */
  ghost predicate OnlyMoved(st: State, end: State, s: Sid) {
    && s in st.sessions && s in end.sessions
    && end == st.(reg := end.reg, sessions := st.sessions[s := end.sessions[s]])
    && end.sessions[s] == st.sessions[s].(keys := end.sessions[s].keys, act := end.sessions[s].act,
                                          ended := end.sessions[s].ended)
  }

  /** Who is registered follows from the records, when nobody is inside an update. */
  lemma RegisteredIs(st: State, end: State, s: Sid, t: Hash, g: Hash, r: Sid)
    requires IndexInv(st) && IndexInv(end) && OnlyMoved(st, end, s) && end.sessions[s].act == Idle
    ensures Has(end.reg, t, g, r) <==> if r == s then KeyIn(end.sessions[s].keys, t, g) else Has(st.reg, t, g, r)
    ensures st.sessions[s].act == Idle ==> (Has(st.reg, t, g, s) <==> KeyIn(st.sessions[s].keys, t, g))
  {
    assert Has(end.reg, t, g, r) <==> Should(end, r, t, g);
    assert Has(st.reg, t, g, r) <==> Should(st, r, t, g);
  }

  /** A subscribe command that a session deals with registers it under the named tags, and nothing
      else changes for anybody. */
  lemma SubscribeRegisters(st: State, s: Sid, t: Hash, tags: seq<Hash>)
    requires IndexInv(st) && CanDeal(st, s) && st.lock == None && tags != []
    ensures exists end :: Leads(st, [SubStart(s, t, tags), SubEnd(s)], end) && OnlyMoved(st, end, s) && CanDeal(end, s)
              && forall t', g, r ::
                   Has(end.reg, t', g, r) <==> Has(st.reg, t', g, r) || (r == s && t' == t && g in tags)
  {
    hide IndexInv, Leads, Has, KeyIn, Add, KeysAdd;
    var mid := After(st, SubStart(s, t, tags));
    var end := After(mid, SubEnd(s));
    IndexStep(st, SubStart(s, t, tags));
    IndexStep(mid, SubEnd(s));
    NoSteps(end);
    LeadsOn(mid, SubEnd(s), [], end);
    LeadsOn(st, SubStart(s, t, tags), [SubEnd(s)] + [], end);
    assert [SubStart(s, t, tags)] + ([SubEnd(s)] + []) == [SubStart(s, t, tags), SubEnd(s)];
    forall t', g, r
      ensures Has(end.reg, t', g, r) <==> Has(st.reg, t', g, r) || (r == s && t' == t && g in tags)
    {
      RegisteredIs(st, end, s, t', g, r);
      SessionStep(mid, SubEnd(s), s, t', g);
    }
  }

  lemma {:induction false} CancelGoesOn(st: State, s: Sid)
    requires IndexInv(st) && s in st.sessions && st.sessions[s].act.Cancelling? && st.lock == None
    ensures var x := st.sessions[s];
            exists labels, end :: Leads(st, labels, end) && IndexInv(end) && OnlyMoved(st, end, s)
              && end.sessions[s] == x.(keys := KeysCancel(x.keys, x.act.t, x.act.tags), act := Idle)
    decreases |st.sessions[s].act.tags| - st.sessions[s].act.done
  {
    hide IndexInv, Leads, Remove, KeysCancel;
    assert SessionOk(st.sessions[s]) by { RecordOk(st, s); }
    var x := st.sessions[s];
    if x.act.done == |x.act.tags| {
      var end := After(st, CancelEnd(s));
      IndexStep(st, CancelEnd(s));
      assert Leads(end, [], end) by { NoSteps(end); }
      LeadsOn(st, CancelEnd(s), [], end);
    } else {
      var mid := After(st, CancelOne(s));
      IndexStep(st, CancelOne(s));
      CancelGoesOn(mid, s);
      var labels, end :| Leads(mid, labels, end) && IndexInv(end) && OnlyMoved(mid, end, s)
                         && end.sessions[s] == x.(keys := KeysCancel(x.keys, x.act.t, x.act.tags), act := Idle);
      LeadsOn(st, CancelOne(s), labels, end);
    }
  }

  lemma RecordOk(st: State, s: Sid)
    requires IndexInv(st) && s in st.sessions
    ensures SessionOk(st.sessions[s])
  {
  }

  lemma NoSteps(st: State)
    ensures Leads(st, [], st)
  {
  }

  /** A cancel command that a session deals with takes it out of the named registrations, and nothing
      else changes for anybody. */
  lemma CancelUnregisters(st: State, s: Sid, t: Hash, tags: seq<Hash>)
    requires IndexInv(st) && CanDeal(st, s) && st.lock == None && tags != []
    ensures exists labels, end :: Leads(st, [CancelStart(s, t, tags)] + labels, end) && OnlyMoved(st, end, s)
              && CanDeal(end, s)
              && forall t', g, r ::
                   Has(end.reg, t', g, r) <==> Has(st.reg, t', g, r) && !(r == s && t' == t && g in tags)
  {
    hide IndexInv, Leads, Has, KeyIn, KeysCancel;
    var mid := After(st, CancelStart(s, t, tags));
    IndexStep(st, CancelStart(s, t, tags));
    CancelGoesOn(mid, s);
    var keys := st.sessions[s].keys;
    var labels, end :| Leads(mid, labels, end) && IndexInv(end) && OnlyMoved(mid, end, s)
                       && end.sessions[s] == mid.sessions[s].(keys := KeysCancel(keys, t, tags), act := Idle);
    LeadsOn(st, CancelStart(s, t, tags), labels, end);
    forall t', g, r
      ensures Has(end.reg, t', g, r) <==> Has(st.reg, t', g, r) && !(r == s && t' == t && g in tags)
    {
      RegisteredIs(st, end, s, t', g, r);
      KeysCancelIn(keys, t, tags, t', g);
    }
  }

  lemma {:induction false} FreeGoesOn(st: State, s: Sid)
    requires IndexInv(st) && s in st.sessions && st.sessions[s].act.Freeing? && st.lock == None
    ensures var x := st.sessions[s];
            exists labels, end :: Leads(st, labels, end) && IndexInv(end) && OnlyMoved(st, end, s)
              && end.sessions[s] == x.(keys := map[], act := Idle, ended := x.ended || x.act.last)
    decreases st.sessions[s].act.todo
  {
    hide IndexInv, Leads, Remove;
    var x := st.sessions[s];
    if x.act.todo == {} {
      var end := After(st, FreeEnd(s));
      IndexStep(st, FreeEnd(s));
      NoSteps(end);
      LeadsOn(st, FreeEnd(s), [], end);
    } else {
      var key := SomeMember(x.act.todo);
      var l := FreeOne(s, key.0, key.1);
      assert (key.0, key.1) == key;
      var mid := After(st, l);
      IndexStep(st, l);
      FreeGoesOn(mid, s);
      var labels, end :| Leads(mid, labels, end) && IndexInv(end) && OnlyMoved(mid, end, s)
                         && end.sessions[s] == x.(keys := map[], act := Idle, ended := x.ended || x.act.last);
      LeadsOn(st, l, labels, end);
    }
  }

  /** free_rc takes the session out of every registration, and nothing else changes for anybody; the
      reader's own one ends it. */
  lemma FreeUnregisters(st: State, s: Sid, last: bool)
    requires IndexInv(st) && Enabled(st, FreeStart(s, last)) && st.lock == None
    ensures exists labels, end :: Leads(st, [FreeStart(s, last)] + labels, end) && OnlyMoved(st, end, s)
              && (last ==> end.sessions[s].ended)
              && forall t, g, r :: Has(end.reg, t, g, r) <==> Has(st.reg, t, g, r) && r != s
  {
    hide IndexInv, Leads, Has, Pairs;
    var mid := After(st, FreeStart(s, last));
    IndexStep(st, FreeStart(s, last));
    FreeGoesOn(mid, s);
    var x := mid.sessions[s];
    var labels, end :| Leads(mid, labels, end) && IndexInv(end) && OnlyMoved(mid, end, s)
                       && end.sessions[s] == x.(keys := map[], act := Idle, ended := x.ended || last);
    LeadsOn(st, FreeStart(s, last), labels, end);
    forall t, g, r ensures Has(end.reg, t, g, r) <==> Has(st.reg, t, g, r) && r != s {
      RegisteredIs(st, end, s, t, g, r);
    }
  }
}
