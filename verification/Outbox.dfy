/** The deque with its mutex and its one chain of async_write calls, as the client (send_queue_) and
    the session (send_queue_, pub_send_queue_) each have it. Each method is one uninterrupted call
    and does to the queue what the corresponding labels of SendQueue do; how the calls of many
    threads interleave is said there. */
module Outboxes {
  import opened SendQueue

  /** What the chain of writes is doing. */
  datatype Writer<P> = Idle | InFlight(p: P) | Stuck(p: P) | Resuming

  const WRITER: Agent := 0
  const OTHER: Agent := 1

  function AgentsOf<P>(w: Writer<P>): map<Agent, Pc<P>> {
    match w
    case Idle => map[]
    case InFlight(p) => map[WRITER := Writing(p)]
    case Stuck(p) => map[WRITER := Failed(p)]
    case Resuming => map[WRITER := Resubscribing]
  }

  class Outbox<P(==)> {
    var queue: seq<P>
    var writer: Writer<P>
    ghost var enqueued: seq<P>
    ghost var acked: seq<P>

    constructor ()
      ensures Ok() && queue == [] && writer == Idle
    {
      queue, writer, enqueued, acked := [], Idle, [], [];
    }

    /** As a state of the queue protocol. */
    ghost function View(): State<P>
      reads this
    {
      State(queue, AgentsOf(writer), enqueued, acked)
    }

    ghost predicate Ok()
      reads this
    {
      Inv(View())
    }

    lemma IdleWhenEmpty()
      requires Ok()
      ensures writer.Idle? <==> queue == []
      ensures writer.InFlight? || writer.Stuck? ==> writer.p == queue[0]
    {
      var v := View();
      if !writer.Idle? {
        assert WRITER in v.agents;
        assert FrontInHand(v, v.agents[WRITER]);
      } else {
        assert forall a :: a !in v.agents.Keys;
      }
    }

    method Write(p: P)
      requires Ok()
      modifies this
      ensures Ok() && Inv(old(View())) && queue == old(queue) + [p]
      ensures View() == Wrote(old(View()), WRITER, OTHER, p)
      ensures writer == if old(queue) == [] then InFlight(p) else old(writer)
    {
      hide Inv;
      ghost var v := View();
      IdleWhenEmpty();
      UninterruptedKeeps(v, WRITER, OTHER, p);
      queue, enqueued := queue + [p], enqueued + [p];
      if |queue| > 1 {
        assert View() == Wrote(v, WRITER, OTHER, p);
        return;
      }
      Send();
      assert View().agents == Wrote(v, WRITER, OTHER, p).agents;
    }

    /** Takes the front and starts writing it. */
    method Send()
      requires queue != []
      modifies `writer
      ensures writer == InFlight(queue[0])
    {
      var msg := queue[0];
      writer := InFlight(msg);
    }

    /** The completion handler. */
    method Complete(ok: bool)
      requires Ok() && writer.InFlight?
      modifies this
      ensures Ok() && Enabled(old(View()), Written(WRITER))
      ensures View() == if ok then Completed(old(View()), WRITER) else After(old(View()), Fails(WRITER))
      ensures queue == if ok then old(queue)[1..] else old(queue)
      ensures ok && |old(queue)| > 1 ==> writer == InFlight(old(queue)[1])
      ensures ok && |old(queue)| == 1 ==> writer == Idle
      ensures !ok ==> writer == Stuck(old(queue)[0])
    {
      hide Inv;
      ghost var v := View();
      IdleWhenEmpty();
      UninterruptedKeeps(v, WRITER, OTHER, writer.p);
      if !ok {
        InvStep(v, Fails(WRITER));
        writer := Stuck(writer.p);
        assert View().agents == After(v, Fails(WRITER)).agents;
        return;
      }
      acked := acked + [queue[0]];
      queue := queue[1..];
      writer := Idle;
      if queue != [] {
        Send();
      }
      assert View().agents == Completed(v, WRITER).agents;
    }

    /** A reconnect has succeeded: the failed front's agent goes on into re_subscribe. */
    method Reconnected()
      requires Ok() && writer.Stuck?
      modifies `writer
      ensures Ok() && writer == Resuming && queue != []
      ensures View() == After(old(View()), Reconnect(WRITER))
    {
      hide Inv;
      ghost var v := View();
      IdleWhenEmpty();
      InvStep(v, Reconnect(WRITER));
      writer := Resuming;
      assert View().agents == After(v, Reconnect(WRITER)).agents;
    }

    /** re_subscribe's own send(), on the front that had failed. */
    method Resume()
      requires Ok() && writer.Resuming?
      modifies `writer
      ensures Ok() && queue != [] && writer == InFlight(queue[0])
      ensures View() == After(After(After(old(View()), ReDone(WRITER)), Front(WRITER)), Start(WRITER))
    {
      hide Inv;
      ghost var v := View();
      IdleWhenEmpty();
      var w := After(v, ReDone(WRITER));
      InvStep(v, ReDone(WRITER));
      InvStep(w, Front(WRITER));
      InvStep(After(w, Front(WRITER)), Start(WRITER));
      Send();
      assert View().agents == After(After(w, Front(WRITER)), Start(WRITER)).agents;
    }
  }
}
