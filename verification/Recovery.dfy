/** What Reconnect's runs can always still do: from whatever point of a failure, a lost connection or a
    reconnect, the client can get back to a connection on which everything is sent and dealt with and
    the session holds exactly the client's keys. */
module Recovery {
  import opened Reconnect
  import opened TagStrings
  import opened Collections

  /** These labels can be taken one after another and lead from st to end. */
  ghost predicate Leads(st: State, labels: seq<Label>, end: State)
    decreases |labels|
  {
    if labels == [] then end == st
    else Enabled(st, labels[0]) && Leads(After(st, labels[0]), labels[1..], end)
  }

  ghost predicate Reaches(st: State, end: State) {
    exists labels :: Leads(st, labels, end)
  }

  lemma ReachesSelf(st: State)
    ensures Reaches(st, st)
  {
    assert Leads(st, [], st);
  }

  lemma ReachesOn(st: State, l: Label, end: State)
    requires Enabled(st, l) && Reaches(After(st, l), end)
    ensures Reaches(st, end)
  {
    hide Enabled, After;
    var labels :| Leads(After(st, l), labels, end);
    assert ([l] + labels)[1..] == labels;
    assert Leads(st, [l] + labels, end);
  }

  /** No call is under way, and every topic's tags come back from a re_subscribe. */
  ghost predicate AtEase(st: State) {
    && Inv(st) && st.calls == map[]
    && forall topic :: topic in Topics(st.subs) ==> SafeTags(TagsOf(st.subs, topic))
  }

  /** Everything is sent and dealt with, and the session holds exactly these keys. */
  predicate Settled(st: State, subs: set<Key>) {
    && st.phase == Synced && st.alive && st.queue == [] && st.transit == [] && st.calls == map[]
    && st.subs == subs == st.live
  }

  lemma StepAtEase(st: State, l: Label)
    requires AtEase(st) && Enabled(st, l)
    requires !l.SubStart? && !l.SubTag? && !l.SubSend? && !l.CancelStart? && !l.CancelSend? && !l.Cut?
    ensures AtEase(After(st, l)) && After(st, l).subs == st.subs
  {
    hide Inv, Topics, TagsOf, SafeTags, Split, Iterates, Dealt;
    if l.ReTopic? {
      TopicOfMap(st);
    }
    InvStep(st, l);
  }

  lemma TopicOfMap(st: State)
    requires Inv(st) && st.phase.Resubscribing?
    ensures st.phase.todo <= Topics(st.subs) && st.queue != []
  {
  }

  lemma Bounds(st: State)
    requires Inv(st)
    ensures st.arrived ==> st.queue != [] && st.alive
    ensures st.phase != Synced ==> st.queue != []
  {
  }

  function PacketsLeft(st: State): int {
    3 * |st.queue| + |st.transit| - if st.arrived then 2 else 0
  }

  /** On a live connection everything queued arrives, is acknowledged and is dealt with. */
  lemma {:induction false} Drains(st: State)
    requires AtEase(st) && st.phase == Synced && st.alive
    ensures exists end :: Reaches(st, end) && Settled(end, st.subs)
    decreases PacketsLeft(st) + 2
  {
    hide AtEase, Reaches, Dealt;
    assert Inv(st) && st.calls == map[] by { EaseMeans(st); }
    Bounds(st);
    if st.queue == [] && st.transit == [] {
      InvAtRest(st);
      assert st.transit + st.queue == [];
      ReachesSelf(st);
      assert Settled(st, st.subs);
    } else {
      var l := if st.transit != [] then Deal else if st.arrived then Written else Arrive;
      StepAtEase(st, l);
      Drains(After(st, l));
      var end :| Reaches(After(st, l), end) && Settled(end, st.subs);
      ReachesOn(st, l, end);
    }
  }

  lemma EaseMeans(st: State)
    requires AtEase(st)
    ensures Inv(st) && st.calls == map[]
  {
  }

  /** re_subscribe gets through the topics it has left. */
  lemma {:induction false} Resubscribes(st: State)
    requires AtEase(st) && st.phase.Resubscribing?
    ensures exists mid :: Reaches(st, mid) && AtEase(mid) && mid.phase == Synced && mid.alive == st.alive
                          && mid.subs == st.subs && mid.queue != []
    decreases st.phase.todo
  {
    hide AtEase, Reaches, Inv, Iterates, TagsOf, Join;
    assert st.queue != [] by { EaseMeans(st); TopicOfMap(st); }
    if st.phase.todo == {} {
      var mid := After(st, ReEnd);
      StepAtEase(st, ReEnd);
      ReachesSelf(mid);
      ReachesOn(st, ReEnd, mid);
    } else {
      var topic := SomeMember(st.phase.todo);
      var order := SomeOrder(TagsOf(st.subs, topic));
      var l := ReTopic(topic, order);
      StepAtEase(st, l);
      Resubscribes(After(st, l));
      var mid :| Reaches(After(st, l), mid) && AtEase(mid) && mid.phase == Synced && mid.alive == st.alive
                 && mid.subs == st.subs && mid.queue != [];
      ReachesOn(st, l, mid);
    }
  }

  lemma {:induction false} SomeOrder(tags: set<string>) returns (order: seq<string>)
    ensures Iterates(order, tags)
    decreases tags
  {
    if tags == {} {
      order := [];
    } else {
      var g := SomeMember(tags);
      var rest := SomeOrder(tags - {g});
      order := rest + [g];
      assert (set h | h in order) == (set h | h in rest) + {g};
    }
  }

  /** From a failed write. */
  lemma FromFailed(st: State)
    requires AtEase(st) && st.phase == Failed
    ensures exists end :: Reaches(st, end) && Settled(end, st.subs)
  {
    hide AtEase, Reaches, Topics, Inv;
    var renewed := After(st, Connect);
    StepAtEase(st, Connect);
    FromFresh(renewed);
    var end :| Reaches(renewed, end) && Settled(end, st.subs);
    ReachesOn(st, Connect, end);
  }

  /** From a fresh connection that has not been lost again. */
  lemma FromFresh(st: State)
    requires AtEase(st) && st.phase == Fresh && st.alive
    ensures exists end :: Reaches(st, end) && Settled(end, st.subs)
  {
    hide AtEase, Reaches, Topics, Inv;
    assert Enabled(st, ReStart) by { EaseMeans(st); }
    var walking := After(st, ReStart);
    StepAtEase(st, ReStart);
    FromResubscribing(walking);
    var end :| Reaches(walking, end) && Settled(end, st.subs);
    ReachesOn(st, ReStart, end);
  }

  lemma FromResubscribing(st: State)
    requires AtEase(st) && st.phase.Resubscribing? && st.alive
    ensures exists end :: Reaches(st, end) && Settled(end, st.subs)
  {
    hide AtEase, Reaches;
    Resubscribes(st);
    var mid :| Reaches(st, mid) && AtEase(mid) && mid.phase == Synced && mid.alive == st.alive
               && mid.subs == st.subs && mid.queue != [];
    Drains(mid);
    var end :| Reaches(mid, end) && Settled(end, st.subs);
    ReachesThrough(st, mid, end);
  }

  lemma ReachesThrough(st: State, mid: State, end: State)
    requires Reaches(st, mid) && Reaches(mid, end)
    ensures Reaches(st, end)
  {
    var labels :| Leads(st, labels, mid);
    LeadsThrough(st, labels, mid, end);
  }

  lemma {:induction false} LeadsThrough(st: State, labels: seq<Label>, mid: State, end: State)
    requires Leads(st, labels, mid) && Reaches(mid, end)
    ensures Reaches(st, end)
    decreases |labels|
  {
    hide Enabled, After, Reaches;
    if labels == [] {
    } else {
      LeadsThrough(After(st, labels[0]), labels[1..], mid, end);
      ReachesOn(st, labels[0], end);
    }
  }

  /** A connection that is lost is noticed by the next write, if need be of a keep-alive. */
  lemma FromLost(st: State)
    requires AtEase(st) && st.phase == Synced && !st.alive
    ensures exists end :: Reaches(st, end) && Settled(end, st.subs)
  {
    hide AtEase, Reaches, Inv;
    if st.queue == [] {
      var ping := Push(Other(0, "", ""));
      var pinged := After(st, ping);
      StepAtEase(st, ping);
      WriteFails(pinged);
      var end :| Reaches(pinged, end) && Settled(end, st.subs);
      ReachesOn(st, ping, end);
    } else {
      WriteFails(st);
    }
  }

  lemma WriteFails(st: State)
    requires AtEase(st) && st.phase == Synced && st.queue != []
    ensures exists end :: Reaches(st, end) && Settled(end, st.subs)
  {
    hide AtEase, Reaches, Inv;
    StepAtEase(st, Fails);
    FromFailed(After(st, Fails));
    var end :| Reaches(After(st, Fails), end) && Settled(end, st.subs);
    ReachesOn(st, Fails, end);
  }

  /** Recovery is always possible. Whatever has failed and wherever a reconnect stands, once no call is
      under way the client can get to a live connection with nothing left to send or to deal with,
      whose session holds exactly the keys that the client holds now. */
  lemma CanRecover(states: seq<State>, labels: seq<Label>, i: nat)
    requires Run(states, labels) && Careful(states, labels) && i < |states| && states[i].calls == map[]
    requires forall topic :: topic in Topics(states[i].subs) ==> SafeTags(TagsOf(states[i].subs, topic))
    ensures exists end :: Reaches(states[i], end) && Settled(end, states[i].subs)
  {
    hide Inv, Reaches, Enabled, Topics, TagsOf, SafeTags;
    var st := states[i];
    InvAlways(states, labels, i);
    match st.phase
    case Synced =>
      if st.alive {
        Drains(st);
      } else {
        FromLost(st);
      }
    case Failed => FromFailed(st);
    case Fresh =>
      if st.alive {
        FromFresh(st);
      } else {
        FreshButLost(st);
      }
    case Resubscribing(_) =>
      if st.alive {
        FromResubscribing(st);
      } else {
        ResubscribingButLost(st);
      }
  }

  lemma ResubscribingButLost(st: State)
    requires AtEase(st) && st.phase.Resubscribing? && !st.alive
    ensures exists end :: Reaches(st, end) && Settled(end, st.subs)
  {
    hide AtEase, Reaches;
    Resubscribes(st);
    var mid :| Reaches(st, mid) && AtEase(mid) && mid.phase == Synced && mid.alive == st.alive
               && mid.subs == st.subs && mid.queue != [];
    FromLost(mid);
    var end :| Reaches(mid, end) && Settled(end, st.subs);
    ReachesThrough(st, mid, end);
  }

  lemma FreshButLost(st: State)
    requires AtEase(st) && st.phase == Fresh && !st.alive
    ensures exists end :: Reaches(st, end) && Settled(end, st.subs)
  {
    hide AtEase, Reaches, Topics, Inv;
    assert Enabled(st, ReStart) by { EaseMeans(st); }
    StepAtEase(st, ReStart);
    ResubscribingButLost(After(st, ReStart));
    var end :| Reaches(After(st, ReStart), end) && Settled(end, st.subs);
    ReachesOn(st, ReStart, end);
  }
}
