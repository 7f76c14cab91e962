/** What the server's runs mean for publications: one global sequence of dispatches, of which every
    session's publish queue is exactly the part that was delivered to it. */
module Broadcast {
  import opened Collections
  import opened Registry
  import opened ServerProtocol

  /** The dispatches delivered to s, in the global order. */
  function Delivered(log: seq<Dispatch>, s: Sid): seq<nat> {
    if log == [] then []
    else
      var n := |log| - 1;
      Delivered(log[..n], s) + (if s in log[n].delivered then [n] else [])
  }

  /** Sessions the open dispatch has still to visit. */
  function Pending(st: State, i: nat): set<Sid> {
    if i + 1 == |st.log| && st.lock.Some? then st.lock.value.todo else {}
  }

  ghost predicate EntryOk(d: Dispatch, pending: set<Sid>, pubs: nat) {
    && d.conns == ConnsOf(TagsOf(d.seen, d.t), d.g)
    && d.delivered + d.skipped + pending == d.conns
    && d.delivered !! d.skipped && pending !! d.delivered && pending !! d.skipped
    && (!d.verify ==> d.skipped == {})
    && d.pub < pubs
  }

  /** The publisher in its critical section: every dispatch it has made so far read the registry
      that is still in place. */
  ghost predicate PublisherOk(st: State, p: Publisher) {
    && p.pub + 1 == st.pubs && p.t in st.reg
    && (p.todo != {} ==> st.log != [] && st.log[|st.log| - 1].pub == p.pub && st.log[|st.log| - 1].verify == p.verify)
    && (forall i :: 0 <= i < |st.log| && st.log[i].pub == p.pub ==> st.log[i].seen == st.reg)
  }

  ghost predicate LogInv(st: State) {
    && (forall s :: s in st.sessions ==> st.sessions[s].history == Delivered(st.log, s))
    && (forall i :: 0 <= i < |st.log| ==> EntryOk(st.log[i], Pending(st, i), st.pubs))
    && (forall i :: 0 <= i < |st.log| ==> st.log[i].delivered <= st.sessions.Keys)
    && (forall i, j :: 0 <= i < |st.log| && 0 <= j < |st.log| && st.log[i].pub == st.log[j].pub
          ==> st.log[i].seen == st.log[j].seen)
    && (st.lock.Some? ==> PublisherOk(st, st.lock.value))
  }

  lemma {:induction false} NothingDelivered(log: seq<Dispatch>, s: Sid)
    requires forall i :: 0 <= i < |log| ==> s !in log[i].delivered
    ensures Delivered(log, s) == []
  {
    if log == [] {
    } else {
      NothingDelivered(log[..|log| - 1], s);
    }
  }

  lemma LogOpen(st: State)
    requires LogInv(st) && Enabled(st, PubOpen)
    ensures LogInv(Opened(st))
  {
    var st' := Opened(st);
    var n := |st.log|;
    if |st'.log| > n {
      assert st'.log[..n] == st.log;
      forall i | 0 <= i < |st'.log| ensures EntryOk(st'.log[i], Pending(st', i), st'.pubs) {
        if i < n {
          assert st'.log[i] == st.log[i];
          assert EntryOk(st.log[i], Pending(st, i), st.pubs);
          assert Pending(st, i) == {};
        }
      }
    }
  }

  lemma LogVisit(st: State, s: Sid)
    requires LogInv(st) && Enabled(st, PubVisit(s))
    ensures LogInv(Visited(st, s))
  {
    hide EntryOk, Delivered;
    var st' := Visited(st, s);
    var n := |st.log| - 1;
    var got := !st.lock.value.verify || st.sessions[s].enabled;
    assert st'.log[..n] == st.log[..n];
    forall i | 0 <= i < |st'.log| ensures EntryOk(st'.log[i], Pending(st', i), st'.pubs) {
      assert EntryOk(st.log[i], Pending(st, i), st.pubs);
      if i == n {
        VisitedEntry(st.log[n], st'.log[n], st.lock.value.todo, s, st.pubs);
      }
    }
    forall r | r in st'.sessions ensures st'.sessions[r].history == Delivered(st'.log, r) {
      assert st.sessions[r].history == Delivered(st.log, r);
      assert EntryOk(st.log[n], Pending(st, n), st.pubs);
      VisitedHistory(st.log, st'.log, st.lock.value.todo, r, s, got, st.pubs);
    }
  }

  lemma VisitedEntry(d: Dispatch, e: Dispatch, todo: set<Sid>, s: Sid, pubs: nat)
    requires EntryOk(d, todo, pubs) && s in todo
    requires e == d.(delivered := d.delivered + {s}) || (d.verify && e == d.(skipped := d.skipped + {s}))
    ensures EntryOk(e, todo - {s}, pubs)
  {
  }

  lemma VisitedHistory(log: seq<Dispatch>, log': seq<Dispatch>, todo: set<Sid>, r: Sid, s: Sid, got: bool, pubs: nat)
    requires log != [] && |log'| == |log| && log'[..|log| - 1] == log[..|log| - 1]
    requires s in todo && EntryOk(log[|log| - 1], todo, pubs)
    requires log'[|log| - 1].delivered == log[|log| - 1].delivered + (if got then {s} else {})
    ensures Delivered(log', r) == Delivered(log, r) + (if got && r == s then [|log| - 1] else [])
  {
  }

  lemma LogStep(st: State, l: Label)
    requires LogInv(st) && Enabled(st, l)
    ensures LogInv(After(st, l))
  {
    hide EntryOk, Delivered, LogInv;
    match l
    case PubOpen => LogOpen(st);
    case PubVisit(s) => LogVisit(st, s);
    case Accept(s) => LogAccept(st, s);
    case PubStart(_, _, _, _) => LogPublisher(st, l);
    case PubEnd => LogPublisher(st, l);
    case _ => LogSession(st, l);
  }

  lemma LogAccept(st: State, s: Sid)
    requires LogInv(st) && Enabled(st, Accept(s))
    ensures LogInv(After(st, Accept(s)))
  {
    NothingDelivered(st.log, s);
    SameLog(st, After(st, Accept(s)));
  }

  lemma LogSession(st: State, l: Label)
    requires LogInv(st) && Enabled(st, l)
    requires !l.Accept? && !l.PubStart? && !l.PubOpen? && !l.PubVisit? && !l.PubEnd?
    ensures LogInv(After(st, l))
  {
    hide EntryOk, Delivered, PublisherOk;
    SameLog(st, After(st, l));
  }

  lemma LogPublisher(st: State, l: Label)
    requires LogInv(st) && Enabled(st, l) && (l.PubStart? || l.PubEnd?)
    ensures LogInv(After(st, l))
  {
    hide Delivered;
    var st' := After(st, l);
    forall i | 0 <= i < |st.log| ensures EntryOk(st'.log[i], Pending(st', i), st'.pubs) {
      assert EntryOk(st.log[i], Pending(st, i), st.pubs);
    }
  }

  /** Steps of sessions leave the log alone, and the registry too while a publisher holds it. */
  lemma SameLog(st: State, st': State)
    requires LogInv(st) && st'.log == st.log && st'.lock == st.lock && st'.pubs == st.pubs
    requires st.lock.Some? ==> st'.reg == st.reg
    requires st.sessions.Keys <= st'.sessions.Keys
    requires forall s :: s in st'.sessions ==>
               st'.sessions[s].history == if s in st.sessions then st.sessions[s].history else Delivered(st.log, s)
    ensures LogInv(st')
  {
    hide EntryOk, Delivered;
    forall i | 0 <= i < |st.log| ensures EntryOk(st'.log[i], Pending(st', i), st'.pubs) {
      assert EntryOk(st.log[i], Pending(st, i), st.pubs);
    }
  }

  lemma {:induction false} LogAlways(states: seq<State>, labels: seq<Label>, i: nat)
    requires Run(states, labels) && i < |states|
    ensures LogInv(states[i])
  {
    if i == 0 {
    } else {
      LogAlways(states, labels, i - 1);
      LogStep(states[i - 1], labels[i - 1]);
      assert states[i - 1 + 1] == states[i];
    }
  }

  lemma {:induction false} DeliveredIsFilter(log: seq<Dispatch>, s: Sid, n: int)
    ensures n in Delivered(log, s) <==> 0 <= n < |log| && s in log[n].delivered
  {
    if log == [] {
    } else {
      DeliveredIsFilter(log[..|log| - 1], s, n);
    }
  }

  ghost predicate Increasing(h: seq<nat>) {
    forall p, q :: 0 <= p < q < |h| ==> h[p] < h[q]
  }

  lemma {:induction false} DeliveredIncreases(log: seq<Dispatch>, s: Sid)
    ensures Increasing(Delivered(log, s))
    ensures forall p :: 0 <= p < |Delivered(log, s)| ==> Delivered(log, s)[p] < |log|
  {
    if log == [] {
    } else {
      DeliveredIncreases(log[..|log| - 1], s);
    }
  }

  // ---------------------------------------------------------------- who gets what

  /** Step i of the run visits s for dispatch n. */
  predicate VisitAt(states: seq<State>, labels: seq<Label>, i: nat, s: Sid, n: nat)
    requires |states| == |labels| + 1
  {
    i < |labels| && labels[i] == PubVisit(s) && |states[i].log| == n + 1
  }

  /** What check_verify asks of a session at the moment of the visit. */
  predicate Passes(st: State, s: Sid, verify: bool) {
    s in st.sessions && (!verify || st.sessions[s].enabled)
  }

  ghost predicate Got(states: seq<State>, labels: seq<Label>, j: nat, s: Sid, n: nat, verify: bool, got: bool)
    requires |states| == |labels| + 1
  {
    exists i: nat :: i < j && VisitAt(states, labels, i, s, n) && Passes(states[i], s, verify) == got
  }

  lemma DeliveredStep(st: State, l: Label, s: Sid, n: nat)
    requires LogInv(st) && Enabled(st, l) && n < |After(st, l).log|
    ensures var st' := After(st, l);
            var now := l == PubVisit(s) && |st.log| == n + 1;
            && (s in st'.log[n].delivered <==>
                  (n < |st.log| && s in st.log[n].delivered) || (now && Passes(st, s, st'.log[n].verify)))
            && (s in st'.log[n].skipped <==>
                  (n < |st.log| && s in st.log[n].skipped) || (now && !Passes(st, s, st'.log[n].verify)))
            && (n < |st.log| ==> st'.log[n].verify == st.log[n].verify)
  {
    hide EntryOk, Delivered;
    if l.PubVisit? {
      assert st.lock.value.todo != {};
    }
  }

  lemma GotLater(states: seq<State>, labels: seq<Label>, j: nat, s: Sid, n: nat, verify: bool, got: bool)
    requires |states| == |labels| + 1 && j > 0
    ensures Got(states, labels, j, s, n, verify, got)
       <==> Got(states, labels, j - 1, s, n, verify, got)
            || (VisitAt(states, labels, j - 1, s, n) && Passes(states[j - 1], s, verify) == got)
  {
    hide Passes;
    if Got(states, labels, j, s, n, verify, got) {
      var i: nat :| i < j && VisitAt(states, labels, i, s, n) && Passes(states[i], s, verify) == got;
      assert i < j - 1 || i == j - 1;
    }
  }

  /** A dispatch is delivered to exactly the sessions that a visit found passing, and passes over
      exactly those that a visit found not passing. */
  lemma {:induction false} DeliveredExactly(states: seq<State>, labels: seq<Label>, j: nat, s: Sid, n: nat)
    requires Run(states, labels) && j < |states| && n < |states[j].log|
    ensures var d := states[j].log[n];
            && (s in d.delivered <==> Got(states, labels, j, s, n, d.verify, true))
            && (s in d.skipped <==> Got(states, labels, j, s, n, d.verify, false))
  {
    hide LogInv, After, Enabled, Passes;
    if j == 0 {
    } else {
      LogAlways(states, labels, j - 1);
      assert states[j - 1 + 1] == After(states[j - 1], labels[j - 1]);
      DeliveredStep(states[j - 1], labels[j - 1], s, n);
      var verify := states[j].log[n].verify;
      GotLater(states, labels, j, s, n, verify, true);
      GotLater(states, labels, j, s, n, verify, false);
      if n < |states[j - 1].log| {
        DeliveredExactly(states, labels, j - 1, s, n);
      } else {
        NoVisitYet(states, labels, j - 1, s, n);
      }
    }
  }

  lemma {:induction false} LogGrows(states: seq<State>, labels: seq<Label>, i: nat, j: nat)
    requires Run(states, labels) && i <= j < |states|
    ensures |states[i].log| <= |states[j].log|
  {
    hide Enabled;
    if i == j {
    } else {
      LogGrows(states, labels, i, j - 1);
      assert states[j - 1 + 1] == After(states[j - 1], labels[j - 1]);
    }
  }

  lemma NoVisitYet(states: seq<State>, labels: seq<Label>, j: nat, s: Sid, n: nat)
    requires Run(states, labels) && j < |states| && n >= |states[j].log|
    ensures forall i: nat :: i <= j ==> !VisitAt(states, labels, i, s, n)
  {
    forall i: nat | i <= j ensures !VisitAt(states, labels, i, s, n) {
      LogGrows(states, labels, i, j);
    }
  }

  /** A visited session is registered at that moment, under the dispatch's topic and tag. */
  lemma VisitedIsRegistered(states: seq<State>, labels: seq<Label>, i: nat, s: Sid, n: nat)
    requires Run(states, labels) && VisitAt(states, labels, i, s, n)
    ensures var d := states[i].log[n]; Has(states[i].reg, d.t, d.g, s) && d.seen == states[i].reg
  {
    LogAlways(states, labels, i);
    var st := states[i];
    assert EntryOk(st.log[n], Pending(st, n), st.pubs);
    assert s in st.log[n].delivered + st.log[n].skipped + Pending(st, n);
  }

  /** Totally ordered broadcast. In every state of every run a session's publish-queue history is
      the global dispatch sequence, in order, filtered to exactly the dispatches that visited it
      while it was enabled or without check_verify; and once a dispatch is over, exactly the sessions
      registered when it started have been visited. */
  lemma HistoryIsFilteredLog(states: seq<State>, labels: seq<Label>, j: nat, s: Sid, n: nat)
    requires Run(states, labels) && j < |states| && s in states[j].sessions
    ensures var st := states[j];
            && Increasing(st.sessions[s].history)
            && (n in st.sessions[s].history <==> n < |st.log| && Got(states, labels, j, s, n, st.log[n].verify, true))
            && (n < |st.log| ==>
                  var d := st.log[n];
                  && (Got(states, labels, j, s, n, d.verify, true) || Got(states, labels, j, s, n, d.verify, false) <==>
                        Has(d.seen, d.t, d.g, s) && s !in Pending(st, n))
                  && !(Got(states, labels, j, s, n, d.verify, true) && Got(states, labels, j, s, n, d.verify, false)))
  {
    hide Got;
    LogAlways(states, labels, j);
    var st := states[j];
    DeliveredIsFilter(st.log, s, n);
    DeliveredIncreases(st.log, s);
    if n < |st.log| {
      var d := st.log[n];
      DeliveredExactly(states, labels, j, s, n);
      assert EntryOk(d, Pending(st, n), st.pubs);
      assert s in d.conns <==> s in d.delivered + d.skipped + Pending(st, n);
    }
  }

  ghost predicate Before(h: seq<nat>, m: nat, n: nat) {
    exists p, q :: 0 <= p < q < |h| && h[p] == m && h[q] == n
  }

  lemma OrderIsGlobal(h: seq<nat>, m: nat, n: nat)
    requires Increasing(h) && m in h && n in h
    ensures Before(h, m, n) <==> m < n
  {
    var p :| 0 <= p < |h| && h[p] == m;
    var q :| 0 <= q < |h| && h[q] == n;
    if m < n {
      assert p < q;
    }
  }

  /** Any two sessions see the publications they share in the same order. */
  lemma SameOrderEverywhere(states: seq<State>, labels: seq<Label>, i: nat, a: Sid, b: Sid, m: nat, n: nat)
    requires Run(states, labels) && i < |states| && a in states[i].sessions && b in states[i].sessions
    requires m in states[i].sessions[a].history && n in states[i].sessions[a].history
    requires m in states[i].sessions[b].history && n in states[i].sessions[b].history
    ensures Before(states[i].sessions[a].history, m, n) <==> Before(states[i].sessions[b].history, m, n)
  {
    hide Got;
    HistoryIsFilteredLog(states, labels, i, a, m);
    HistoryIsFilteredLog(states, labels, i, b, m);
    OrderIsGlobal(states[i].sessions[a].history, m, n);
    OrderIsGlobal(states[i].sessions[b].history, m, n);
  }

  /** One publish call uses one registry for both its dispatches, and that registry is the server's
      own for as long as the call lasts. */
  lemma OneSnapshotPerPublish(states: seq<State>, labels: seq<Label>, i: nat, m: nat, n: nat)
    requires Run(states, labels) && i < |states| && m < |states[i].log| && n < |states[i].log|
    requires states[i].log[m].pub == states[i].log[n].pub
    ensures var st, d, e := states[i], states[i].log[m], states[i].log[n];
            && d.seen == e.seen
            && d.conns == ConnsOf(TagsOf(d.seen, d.t), d.g) && e.conns == ConnsOf(TagsOf(d.seen, e.t), e.g)
            && (st.lock.Some? && st.lock.value.pub == d.pub ==> d.seen == st.reg)
  {
    LogAlways(states, labels, i);
    var st := states[i];
    assert EntryOk(st.log[m], Pending(st, m), st.pubs) && EntryOk(st.log[n], Pending(st, n), st.pubs);
  }

  /** publish only touches sessions that are still held alive: whoever the open dispatch has still
      to visit exists and its reader has not ended, so the visit is always possible. */
  lemma PublishTouchesLiveSessions(states: seq<State>, labels: seq<Label>, i: nat, s: Sid)
    requires Run(states, labels) && i < |states|
    requires states[i].lock.Some? && s in states[i].lock.value.todo
    ensures s in states[i].sessions && !states[i].sessions[s].ended && Enabled(states[i], PubVisit(s))
  {
    LogAlways(states, labels, i);
    var st := states[i];
    var n := |st.log| - 1;
    var d := st.log[n];
    assert EntryOk(d, Pending(st, n), st.pubs);
    assert Pending(st, n) == st.lock.value.todo;
    assert s in d.delivered + d.skipped + Pending(st, n);
    assert s in d.conns;
    assert d.seen == st.reg;
    EndedIsUnregistered(states, labels, i, s, d.t, d.g);
  }

  /** What a dispatch read stays on record. */
  ghost predicate Grows(a: State, b: State) {
    && |a.log| <= |b.log| && a.sessions.Keys <= b.sessions.Keys
    && forall n :: 0 <= n < |a.log| ==>
         && b.log[n].verify == a.log[n].verify && b.log[n].conns == a.log[n].conns
         && b.log[n].t == a.log[n].t && b.log[n].g == a.log[n].g && b.log[n].seen == a.log[n].seen
  }

  /** Enabled for check_verify, at every state from i to j. */
  ghost predicate StaysEnabled(states: seq<State>, i: nat, j: nat, s: Sid) {
    forall k :: i <= k <= j && k < |states| ==> s in states[k].sessions && states[k].sessions[s].enabled
  }

  lemma GrowsStep(st: State, l: Label)
    requires Enabled(st, l)
    ensures Grows(st, After(st, l))
  {
    hide Add, Remove, KeysAdd, KeysCancel, Pairs;
  }

  lemma GrowsFurther(a: State, b: State, c: State)
    requires Grows(a, b) && Grows(b, c)
    ensures Grows(a, c)
  {
  }

  lemma NotSkippedStep(st: State, l: Label, s: Sid, n: nat)
    requires LogInv(st) && Enabled(st, l) && n < |st.log| && s !in st.log[n].skipped
    requires st.log[n].verify ==> s in st.sessions && st.sessions[s].enabled
    ensures s !in After(st, l).log[n].skipped
  {
    if l.PubVisit? {
      assert st.lock.value.todo != {};
    }
  }

  lemma {:induction false} NotSkippedLater(states: seq<State>, labels: seq<Label>, i: nat, j: nat, s: Sid, n: nat)
    requires Run(states, labels) && i <= j < |states| && n < |states[i].log| && s !in states[i].log[n].skipped
    requires states[i].log[n].verify ==> StaysEnabled(states, i, j, s)
    ensures Grows(states[i], states[j]) && s !in states[j].log[n].skipped
  {
    hide After, Enabled, LogInv;
    if i == j {
    } else {
      NotSkippedLater(states, labels, i, j - 1, s, n);
      assert states[j - 1 + 1] == After(states[j - 1], labels[j - 1]);
      LogAlways(states, labels, j - 1);
      GrowsStep(states[j - 1], labels[j - 1]);
      GrowsFurther(states[i], states[j - 1], states[j]);
      NotSkippedStep(states[j - 1], labels[j - 1], s, n);
    }
  }

  /** No gaps. Whoever is registered when a dispatch starts (and enabled from then on, when
      check_verify is set) has it in its queue once that dispatch is over. */
  lemma NoGaps(states: seq<State>, labels: seq<Label>, i: nat, j: nat, s: Sid)
    requires Run(states, labels) && i < j < |states| && labels[i] == PubOpen
    requires |states[i + 1].log| > |states[i].log|
    requires var d := states[i + 1].log[|states[i].log|];
             && Has(states[i].reg, d.t, d.g, s)
             && (d.verify ==> StaysEnabled(states, i + 1, j, s))
    requires Pending(states[j], |states[i].log|) == {}
    ensures s in states[j].sessions && |states[i].log| in states[j].sessions[s].history
  {
    var n := |states[i].log|;
    assert states[i + 1] == Opened(states[i]);
    var d := states[i + 1].log[n];
    assert s in d.conns;
    NotSkippedLater(states, labels, i + 1, j, s, n);
    EndedIsUnregistered(states, labels, i, s, d.t, d.g);
    assert s in states[i + 1].sessions;
    LogAlways(states, labels, j);
    var e := states[j].log[n];
    assert EntryOk(e, Pending(states[j], n), states[j].pubs);
    assert s in e.delivered + e.skipped + Pending(states[j], n);
    DeliveredIsFilter(states[j].log, s, n);
  }

  /** The same, seen from the session: subscribed by its own record and not inside an update when
      the dispatch starts, and enabled from then on if check_verify is set. */
  lemma SubscriberGetsIt(states: seq<State>, labels: seq<Label>, i: nat, j: nat, s: Sid)
    requires Run(states, labels) && i < j < |states| && labels[i] == PubOpen
    requires |states[i + 1].log| > |states[i].log|
    requires s in states[i].sessions && states[i].sessions[s].act == Idle
    requires var d := states[i + 1].log[|states[i].log|];
             && KeyIn(states[i].sessions[s].keys, d.t, d.g)
             && (d.verify ==> StaysEnabled(states, i + 1, j, s))
    requires Pending(states[j], |states[i].log|) == {}
    ensures s in states[j].sessions && |states[i].log| in states[j].sessions[s].history
  {
    var d := states[i + 1].log[|states[i].log|];
    TwoIndexesAgree(states, labels, i, s, d.t, d.g);
    NoGaps(states, labels, i, j, s);
  }

  /** Disabled for check_verify, at every state from i to j. */
  ghost predicate StaysDisabled(states: seq<State>, i: nat, j: nat, s: Sid) {
    forall k :: i <= k <= j && k < |states| && s in states[k].sessions ==> !states[k].sessions[s].enabled
  }

  /** Whoever is disabled from the start of a dispatch with check_verify on never gets it. */
  lemma DisabledMisses(states: seq<State>, labels: seq<Label>, i: nat, j: nat, s: Sid)
    requires Run(states, labels) && i < j < |states| && labels[i] == PubOpen
    requires |states[i + 1].log| > |states[i].log| && states[i + 1].log[|states[i].log|].verify
    requires s in states[j].sessions && StaysDisabled(states, i + 1, j, s)
    ensures |states[i].log| !in states[j].sessions[s].history
  {
    var n := |states[i].log|;
    HistoryIsFilteredLog(states, labels, j, s, n);
    SameVerify(states, labels, i + 1, j, n);
    if Got(states, labels, j, s, n, true, true) {
      var k: nat :| k < j && VisitAt(states, labels, k, s, n) && Passes(states[k], s, true);
      NoVisitYet(states, labels, i, s, n);
    }
  }

  lemma {:induction false} SameVerify(states: seq<State>, labels: seq<Label>, i: nat, j: nat, n: nat)
    requires Run(states, labels) && i <= j < |states| && n < |states[i].log|
    ensures n < |states[j].log| && states[j].log[n].verify == states[i].log[n].verify
  {
    hide After, Enabled, LogInv;
    if i == j {
    } else {
      SameVerify(states, labels, i, j - 1, n);
      assert states[j - 1 + 1] == After(states[j - 1], labels[j - 1]);
      GrowsStep(states[j - 1], labels[j - 1]);
    }
  }

  // ---------------------------------------------------------------- one publish call

  /** What a dispatch is, apart from who got it. */
  datatype Part = Part(t: Hash, g: Hash, verify: bool, seen: Registry<Sid>)

  function PartOf(d: Dispatch): Part {
    Part(d.t, d.g, d.verify, d.seen)
  }

  /** The dispatches of one publish call, in order. */
  function Parts(log: seq<Dispatch>, pub: nat): seq<Part> {
    if log == [] then []
    else
      var d := log[|log| - 1];
      Parts(log[..|log| - 1], pub) + if d.pub == pub then [PartOf(d)] else []
  }

  function Found(reg: Registry<Sid>, t: Hash, h: Hash, verify: bool): seq<Part> {
    if t in reg && h in reg[t] then [Part(t, h, verify, reg)] else []
  }

  /** What publish has dispatched when it is in this phase. */
  function Due(reg: Registry<Sid>, call: Publisher, phase: Phase): seq<Part> {
    match phase
    case Star => []
    case Tag => Found(reg, call.t, call.star, call.verify)
    case Done => Found(reg, call.t, call.star, call.verify) + Found(reg, call.t, call.g, call.verify)
  }

  predicate SameCall(p: Publisher, call: Publisher) {
    p.pub == call.pub && p.t == call.t && p.star == call.star && p.g == call.g && p.verify == call.verify
  }

  /** From its start on, `call` has dispatched what it should: so much as its phase says while it
      holds the lock, everything afterwards. `reg` is the registry it found. */
  predicate CallInv(st: State, call: Publisher, reg: Registry<Sid>) {
    && call.pub < st.pubs
    && if st.lock.Some? && st.lock.value.pub == call.pub then
         SameCall(st.lock.value, call) && st.reg == reg
         && Parts(st.log, call.pub) == Due(reg, call, st.lock.value.phase)
       else
         Parts(st.log, call.pub) == Due(reg, call, Done)
  }

  lemma {:induction false} NoParts(log: seq<Dispatch>, pub: nat)
    requires forall i :: 0 <= i < |log| ==> log[i].pub != pub
    ensures Parts(log, pub) == []
  {
    if log == [] {
    } else {
      NoParts(log[..|log| - 1], pub);
    }
  }

  lemma {:induction false} SameParts(log: seq<Dispatch>, log': seq<Dispatch>, pub: nat)
    requires |log| == |log'|
    requires forall i :: 0 <= i < |log| ==> PartOf(log[i]) == PartOf(log'[i]) && log[i].pub == log'[i].pub
    ensures Parts(log, pub) == Parts(log', pub)
  {
    if log == [] {
    } else {
      SameParts(log[..|log| - 1], log'[..|log| - 1], pub);
    }
  }

  lemma CallStarts(st: State, l: Label)
    requires LogInv(st) && Enabled(st, l) && l.PubStart?
    ensures After(st, l).lock.Some? && CallInv(After(st, l), After(st, l).lock.value, st.reg)
  {
    hide Delivered;
    forall i | 0 <= i < |st.log| ensures st.log[i].pub != st.pubs {
      assert EntryOk(st.log[i], Pending(st, i), st.pubs);
    }
    NoParts(st.log, st.pubs);
  }

  lemma CallStep(st: State, l: Label, call: Publisher, reg: Registry<Sid>)
    requires Enabled(st, l) && CallInv(st, call, reg)
    ensures CallInv(After(st, l), call, reg)
  {
    hide Delivered, Due, Found, Parts;
    match l
    case PubOpen => CallOpen(st, call, reg);
    case PubVisit(s) => SameParts(st.log, After(st, l).log, call.pub);
    case _ =>
  }

  lemma CallOpen(st: State, call: Publisher, reg: Registry<Sid>)
    requires Enabled(st, PubOpen) && CallInv(st, call, reg)
    ensures CallInv(Opened(st), call, reg)
  {
    hide Parts;
    var st' := Opened(st);
    if |st'.log| > |st.log| {
      PartsLast(st.log, st'.log[|st.log|], call.pub);
    }
  }

  lemma PartsLast(log: seq<Dispatch>, d: Dispatch, pub: nat)
    ensures Parts(log + [d], pub) == Parts(log, pub) + if d.pub == pub then [PartOf(d)] else []
  {
    assert (log + [d])[..|log|] == log;
  }

  lemma {:induction false} CallAlways(states: seq<State>, labels: seq<Label>, i: nat, j: nat)
    requires Run(states, labels) && i < j < |states| && labels[i].PubStart?
    ensures states[i + 1].lock.Some? && CallInv(states[j], states[i + 1].lock.value, states[i].reg)
    decreases j
  {
    hide Enabled, LogInv, CallInv;
    LogAlways(states, labels, i);
    CallStarts(states[i], labels[i]);
    if j > i + 1 {
      CallAlways(states, labels, i, j - 1);
      assert states[j - 1 + 1] == After(states[j - 1], labels[j - 1]);
      CallStep(states[j - 1], labels[j - 1], states[i + 1].lock.value, states[i].reg);
    }
  }

  /** Dispatches of one call are neighbours in the global sequence. */
  ghost predicate Grouped(log: seq<Dispatch>) {
    forall i, j :: 0 <= i <= j < |log| ==> log[i].pub <= log[j].pub
  }

  lemma GroupedStep(st: State, l: Label)
    requires LogInv(st) && Enabled(st, l) && Grouped(st.log)
    ensures Grouped(After(st, l).log)
  {
    hide Delivered, EntryOk;
    if l.PubOpen? {
      forall i | 0 <= i < |st.log| ensures st.log[i].pub <= st.lock.value.pub {
        EntryIsEarlier(st, i);
      }
    }
  }

  lemma EntryIsEarlier(st: State, i: nat)
    requires LogInv(st) && st.lock.Some? && i < |st.log|
    ensures st.log[i].pub <= st.lock.value.pub
  {
    assert EntryOk(st.log[i], Pending(st, i), st.pubs);
  }

  lemma {:induction false} GroupedAlways(states: seq<State>, labels: seq<Label>, i: nat)
    requires Run(states, labels) && i < |states|
    ensures Grouped(states[i].log)
  {
    hide Enabled, After, LogInv, Grouped;
    if i == 0 {
      assert Grouped([]) by { NothingGrouped(); }
    } else {
      GroupedAlways(states, labels, i - 1);
      LogAlways(states, labels, i - 1);
      GroupedStep(states[i - 1], labels[i - 1]);
      assert states[i - 1 + 1] == states[i];
    }
  }

  lemma NothingGrouped()
    ensures Grouped([])
  {
  }

  lemma {:induction false} NoPart(log: seq<Dispatch>, pub: nat)
    requires Parts(log, pub) == []
    ensures forall k :: 0 <= k < |log| ==> log[k].pub != pub
  {
    if log == [] {
    } else {
      NoPart(log[..|log| - 1], pub);
    }
  }

  lemma {:induction false} OnePart(log: seq<Dispatch>, pub: nat, x: Part) returns (n: nat)
    requires Parts(log, pub) == [x]
    ensures n < |log| && PartOf(log[n]) == x
    ensures forall k :: 0 <= k < |log| ==> (log[k].pub == pub <==> k == n)
  {
    var front, d := log[..|log| - 1], log[|log| - 1];
    if d.pub == pub {
      n := |log| - 1;
      assert Parts(log, pub)[..|Parts(log, pub)| - 1] == Parts(front, pub);
      NoPart(front, pub);
    } else {
      assert Parts(log, pub) == Parts(front, pub);
      n := OnePart(front, pub, x);
    }
  }

  lemma {:induction false} TwoParts(log: seq<Dispatch>, pub: nat, x: Part, y: Part) returns (n: nat)
    requires Parts(log, pub) == [x, y] && Grouped(log)
    ensures n + 1 < |log| && PartOf(log[n]) == x && PartOf(log[n + 1]) == y
    ensures forall k :: 0 <= k < |log| ==> (log[k].pub == pub <==> k == n || k == n + 1)
  {
    var m := |log| - 1;
    var front, d := log[..m], log[m];
    if d.pub == pub {
      assert Parts(log, pub)[..1] == Parts(front, pub) == [x] && Parts(log, pub)[1] == PartOf(d);
      n := OnePart(front, pub, x);
      assert front[n].pub == log[n].pub == pub;
      assert forall k :: 0 <= k < m ==> front[k] == log[k] && log[n].pub <= log[m].pub;
    } else {
      assert Parts(log, pub) == Parts(front, pub);
      n := TwoParts(front, pub, x, y);
    }
  }

  /** The dispatch of publish call `pub` for one tag, from this registry. */
  predicate IsFor(d: Dispatch, pub: nat, t: Hash, h: Hash, verify: bool, reg: Registry<Sid>) {
    && d.pub == pub && d.t == t && d.g == h && d.verify == verify && d.seen == reg
    && Wanted(reg, t, h) && d.conns == reg[t][h]
  }

  /** Somebody is registered for this tag of the topic. */
  predicate Wanted(reg: Registry<Sid>, t: Hash, h: Hash) {
    t in reg && h in reg[t]
  }

  /** The dispatches of this publish call are at these places of the global sequence and at no other. */
  ghost predicate OnlyAt(log: seq<Dispatch>, pub: nat, places: set<nat>) {
    forall k: nat :: k < |log| ==> (log[k].pub == pub <==> k in places)
  }

  lemma IsForAll(d: Dispatch, pub: nat, t: Hash, h: Hash, verify: bool, reg: Registry<Sid>, s: Sid)
    requires IsFor(d, pub, t, h, verify, reg)
    ensures d.pub == pub && d.verify == verify && (Has(d.seen, d.t, d.g, s) <==> Has(reg, t, h, s))
  {
  }

  lemma PartIsFor(states: seq<State>, labels: seq<Label>, j: nat, n: nat, pub: nat, reg: Registry<Sid>,
                  t: Hash, h: Hash, verify: bool)
    requires Run(states, labels) && j < |states| && n < |states[j].log| && states[j].log[n].pub == pub
    requires PartOf(states[j].log[n]) == Part(t, h, verify, reg) && Wanted(reg, t, h)
    ensures IsFor(states[j].log[n], pub, t, h, verify, reg)
  {
    LogAlways(states, labels, j);
    assert EntryOk(states[j].log[n], Pending(states[j], n), states[j].pubs);
  }

  /** What a publish call does. Once it has given the registry back, and for ever after, the global
      sequence holds for it exactly: its topic's "*" if anyone was registered for that, then its
      topic's tag if anyone was registered for that, both with its check_verify and with the registry
      it found when it started, next to each other. */
  lemma PublishDispatches(states: seq<State>, labels: seq<Label>, i: nat, j: nat)
    requires Run(states, labels) && i < j < |states| && labels[i].PubStart?
    requires states[j].lock.Some? ==> states[j].lock.value.pub != states[i].pubs
    ensures var l, reg, log := labels[i], states[i].reg, states[j].log;
            Wanted(reg, l.t, l.star) && Wanted(reg, l.t, l.g) ==>
              exists n: nat :: n + 1 < |log| && OnlyAt(log, states[i].pubs, {n, n + 1})
                && IsFor(log[n], states[i].pubs, l.t, l.star, l.verify, reg)
                && IsFor(log[n + 1], states[i].pubs, l.t, l.g, l.verify, reg)
    ensures var l, reg, log := labels[i], states[i].reg, states[j].log;
            Wanted(reg, l.t, l.star) && !Wanted(reg, l.t, l.g) ==>
              exists n: nat :: n < |log| && OnlyAt(log, states[i].pubs, {n})
                && IsFor(log[n], states[i].pubs, l.t, l.star, l.verify, reg)
    ensures var l, reg, log := labels[i], states[i].reg, states[j].log;
            !Wanted(reg, l.t, l.star) && Wanted(reg, l.t, l.g) ==>
              exists n: nat :: n < |log| && OnlyAt(log, states[i].pubs, {n})
                && IsFor(log[n], states[i].pubs, l.t, l.g, l.verify, reg)
    ensures !Wanted(states[i].reg, labels[i].t, labels[i].star) && !Wanted(states[i].reg, labels[i].t, labels[i].g) ==>
              OnlyAt(states[j].log, states[i].pubs, {})
  {
    hide Parts, Grouped, After, Enabled, IsFor;
    PartsDue(states, labels, i, j);
    var l, reg, p, log := labels[i], states[i].reg, states[i].pubs, states[j].log;
    var x, y := Part(l.t, l.star, l.verify, reg), Part(l.t, l.g, l.verify, reg);
    if Wanted(reg, l.t, l.star) && Wanted(reg, l.t, l.g) {
      assert [x] + [y] == [x, y];
      var n := TwoParts(log, p, x, y);
      PartIsFor(states, labels, j, n, p, reg, l.t, l.star, l.verify);
      PartIsFor(states, labels, j, n + 1, p, reg, l.t, l.g, l.verify);
    } else if Wanted(reg, l.t, l.star) {
      assert [x] + [] == [x];
      var n := OnePart(log, p, x);
      PartIsFor(states, labels, j, n, p, reg, l.t, l.star, l.verify);
    } else if Wanted(reg, l.t, l.g) {
      assert [] + [y] == [y];
      var n := OnePart(log, p, y);
      PartIsFor(states, labels, j, n, p, reg, l.t, l.g, l.verify);
    } else {
      NoPart(log, p);
    }
  }

  lemma PartsDue(states: seq<State>, labels: seq<Label>, i: nat, j: nat)
    requires Run(states, labels) && i < j < |states| && labels[i].PubStart?
    requires states[j].lock.Some? ==> states[j].lock.value.pub != states[i].pubs
    ensures var l, reg := labels[i], states[i].reg;
            Parts(states[j].log, states[i].pubs) == Found(reg, l.t, l.star, l.verify) + Found(reg, l.t, l.g, l.verify)
    ensures Grouped(states[j].log)
  {
    hide Parts, Found, Grouped;
    CallAlways(states, labels, i, j);
    GroupedAlways(states, labels, j);
    assert states[i + 1] == After(states[i], labels[i]);
  }

  /** A published message reaches its subscribers: whoever is registered for the topic's "*" or for its
      tag when publish starts, and enabled until it is over if check_verify is set, has that dispatch
      in its queue's history when publish is over. */
  lemma PublishReaches(states: seq<State>, labels: seq<Label>, i: nat, j: nat, s: Sid, h: Hash)
    requires Run(states, labels) && i < j < |states| && labels[i].PubStart?
    requires states[j].lock == None && (h == labels[i].star || h == labels[i].g)
    requires Has(states[i].reg, labels[i].t, h, s) && (labels[i].verify ==> StaysEnabled(states, i, j, s))
    ensures s in states[j].sessions
    ensures exists n: nat :: n in states[j].sessions[s].history && n < |states[j].log|
              && IsFor(states[j].log[n], states[i].pubs, labels[i].t, h, labels[i].verify, states[i].reg)
  {
    var l, reg, p, log := labels[i], states[i].reg, states[i].pubs, states[j].log;
    assert Wanted(reg, l.t, h);
    PublishDispatches(states, labels, i, j);
    var n: nat :| n < |log| && IsFor(log[n], p, l.t, h, l.verify, reg);
    IsForAll(log[n], p, l.t, h, l.verify, reg, s);
    hide IsFor, Got, After, Enabled, VisitAt, Passes, Has;
    EndedIsUnregistered(states, labels, i, s, l.t, h);
    SessionsStay(states, labels, i, j, s);
    HistoryIsFilteredLog(states, labels, j, s, n);
    NewEntry(states, labels, i, j, n);
    NeverSkipped(states, labels, i, j, s, n, l.verify);
  }

  /** A dispatch that came after i has passed over nobody who was enabled all the time. */
  lemma NeverSkipped(states: seq<State>, labels: seq<Label>, i: nat, j: nat, s: Sid, n: nat, verify: bool)
    requires Run(states, labels) && i < j < |states| && n >= |states[i].log| && s in states[i].sessions
    requires verify ==> StaysEnabled(states, i, j, s)
    ensures !Got(states, labels, j, s, n, verify, false)
  {
    hide After, Enabled;
    if Got(states, labels, j, s, n, verify, false) {
      var k: nat :| k < j && VisitAt(states, labels, k, s, n) && Passes(states[k], s, verify) == false;
      if k < i {
        LogGrows(states, labels, k, i);
      } else {
        SessionsStay(states, labels, i, k, s);
      }
    }
  }

  lemma {:induction false} SessionsStay(states: seq<State>, labels: seq<Label>, i: nat, j: nat, s: Sid)
    requires Run(states, labels) && i <= j < |states| && s in states[i].sessions
    ensures s in states[j].sessions
  {
    hide After, Enabled;
    if i < j {
      SessionsStay(states, labels, i, j - 1, s);
      GrowsStep(states[j - 1], labels[j - 1]);
      assert states[j - 1 + 1] == states[j];
    }
  }

  /** A call's dispatches are not there before it starts. */
  lemma NewEntry(states: seq<State>, labels: seq<Label>, i: nat, j: nat, n: nat)
    requires Run(states, labels) && i < j < |states| && n < |states[j].log| && states[j].log[n].pub == states[i].pubs
    ensures n >= |states[i].log|
  {
    hide After, Enabled;
    if n < |states[i].log| {
      LogAlways(states, labels, i);
      assert EntryOk(states[i].log[n], Pending(states[i], n), states[i].pubs);
      SamePub(states, labels, i, j, n);
    }
  }

  lemma {:induction false} SamePub(states: seq<State>, labels: seq<Label>, i: nat, j: nat, n: nat)
    requires Run(states, labels) && i <= j < |states| && n < |states[i].log|
    ensures n < |states[j].log| && states[j].log[n].pub == states[i].log[n].pub
  {
    hide Enabled;
    if i < j {
      SamePub(states, labels, i, j - 1, n);
      assert states[j - 1 + 1] == After(states[j - 1], labels[j - 1]);
    }
  }

  // ---------------------------------------------------------------- a publish call comes to its end

  /** Turns a publish call still has to take. */
  function PhasesLeft(p: Publisher): nat {
    match p.phase
    case Star => 2
    case Tag => 1
    case Done => 0
  }

  lemma {:induction false} PublishGoesOn(st: State)
    requires LogInv(st) && st.lock.Some? && st.lock.value.todo <= st.sessions.Keys
    requires forall g, s :: Has(st.reg, st.lock.value.t, g, s) ==> s in st.sessions
    ensures exists labels, end :: Leads(st, labels, end) && end.lock == None && end.reg == st.reg
    decreases PhasesLeft(st.lock.value), st.lock.value.todo
  {
    hide LogInv, Leads, Delivered;
    var p := st.lock.value;
    var l := if p.phase == Done then PubEnd else PubOpen;
    if p.todo != {} {
      var s := SomeMember(p.todo);
      l := PubVisit(s);
    }
    assert PublisherOk(st, p) by { Publishing(st); }
    var next := After(st, l);
    LogStep(st, l);
    if l.PubEnd? {
      NoSteps(next);
      LeadsOn(st, l, [], next);
    } else {
      assert next.lock.value.todo <= next.sessions.Keys by {
        if l.PubOpen? {
          var h := if p.phase == Star then p.star else p.g;
          assert forall s :: s in next.lock.value.todo ==> Has(st.reg, p.t, h, s);
        }
      }
      PublishGoesOn(next);
      var labels, end :| Leads(next, labels, end) && end.lock == None && end.reg == next.reg;
      LeadsOn(st, l, labels, end);
    }
  }

  lemma Publishing(st: State)
    requires LogInv(st) && st.lock.Some?
    ensures PublisherOk(st, st.lock.value)
  {
  }

  /** publish always comes to its end and gives the registry back, whatever sessions are doing. */
  lemma PublishCanFinish(states: seq<State>, labels: seq<Label>, i: nat)
    requires Run(states, labels) && i < |states| && states[i].lock.Some?
    ensures exists next, end :: Leads(states[i], next, end) && end.lock == None && end.reg == states[i].reg
  {
    var st := states[i];
    LogAlways(states, labels, i);
    forall s | s in st.lock.value.todo ensures s in st.sessions {
      PublishTouchesLiveSessions(states, labels, i, s);
    }
    forall g, s | Has(st.reg, st.lock.value.t, g, s) ensures s in st.sessions {
      EndedIsUnregistered(states, labels, i, s, st.lock.value.t, g);
    }
    PublishGoesOn(st);
  }
}
