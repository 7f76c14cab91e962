/** The client (include/rpc_client.hpp) as the object it is: its two callback maps, its queue and
    its next id. Each method is one uninterrupted call; Reconnect and Requests say what happens when
    the calls of many threads, failures and reconnects interleave. */
module Client {
  import opened Collections
  import opened TagStrings
  import opened Outboxes
  import Reconnect
  import SendQueue

  type Key = Reconnect.Key
  type Packet = Reconnect.Packet
  type Callback = nat

  /** subscribe moves its callback into the closure of the first tag; the closures of later tags are
      made from what the move left behind. */
  datatype SubCallback = Given(cb: Callback) | MovedFrom(cb: Callback)

  type TagFuncs = map<string, SubCallback>
  type SubCallbacks = map<string, TagFuncs>

  function KeySet(subs: SubCallbacks): set<Key> {
    set t, g | t in subs && g in subs[t] :: Reconnect.Key(t, g)
  }

  ghost predicate NoEmpty(subs: SubCallbacks) {
    forall t :: t in subs ==> subs[t] != map[]
  }

  /** Tags come from splits. */
  ghost predicate FromSplits(subs: SubCallbacks) {
    forall k :: k in KeySet(subs) ==> !HasSeparator(k.tag)
  }

  /** sub_cb_map_[topic][tag] = cb */
  function Put(subs: SubCallbacks, topic: string, tag: string, cb: SubCallback): SubCallbacks {
    subs[topic := (if topic in subs then subs[topic] else map[])[tag := cb]]
  }

  function PutAll(subs: SubCallbacks, topic: string, tags: seq<string>, cb: Callback): SubCallbacks {
    if tags == [] then subs
    else Put(PutAll(subs, topic, tags[..|tags| - 1], cb), topic, tags[|tags| - 1], Turn(|tags| - 1, cb))
  }

  /** What the i-th turn of the loop stores. */
  function Turn(i: nat, cb: Callback): SubCallback {
    if i == 0 then Given(cb) else MovedFrom(cb)
  }

  /** The callback that a named tag ends up with: the given one only if it is the first tag and not
      named again. */
  function Stored(tags: seq<string>, g: string, cb: Callback): SubCallback {
    if tags != [] && g == tags[0] && g !in tags[1..] then Given(cb) else MovedFrom(cb)
  }

  function Drop(subs: SubCallbacks, topic: string, tags: seq<string>): SubCallbacks {
    if topic !in subs then subs
    else
      var left := subs[topic] - (set g | g in tags);
      if left == map[] then subs - {topic} else subs[topic := left]
  }

  predicate Holds(subs: SubCallbacks, t: string, g: string) {
    t in subs && g in subs[t]
  }

  lemma HoldsIsKey(subs: SubCallbacks, t: string, g: string)
    ensures Reconnect.Key(t, g) in KeySet(subs) <==> Holds(subs, t, g)
  {
  }

  lemma {:induction false} PutAllHolds(subs: SubCallbacks, topic: string, tags: seq<string>,
                                     cb: Callback, t: string, g: string)
    ensures var r := PutAll(subs, topic, tags, cb);
            && (Holds(r, t, g) <==> Holds(subs, t, g) || (t == topic && g in tags))
            && (Holds(r, t, g) ==> r[t][g] == if t == topic && g in tags then Stored(tags, g, cb) else subs[t][g])
            && (t == topic && g in tags && g == tags[0] && g !in tags[1..] ==> r[t][g] == Given(cb))
            && (t == topic && g in tags && !(g == tags[0] && g !in tags[1..]) ==> r[t][g] == MovedFrom(cb))
  {
    if tags == [] {
    } else {
      hide Put, Holds;
      var front, last := tags[..|tags| - 1], tags[|tags| - 1];
      PutAllHolds(subs, topic, front, cb, t, g);
      PutHolds(PutAll(subs, topic, front, cb), topic, last, Turn(|front|, cb), t, g);
      if g == last || g in front {
        StoredLast(front, last, g, cb);
      }
      assert tags == front + [last];
    }
  }

  /** The same for all topics and tags at once. */
  lemma PutAllSays(subs: SubCallbacks, topic: string, tags: seq<string>, cb: Callback)
    ensures var r := PutAll(subs, topic, tags, cb);
            && (forall t, g :: Holds(r, t, g) <==> Holds(subs, t, g) || (t == topic && g in tags))
            && (forall g :: g in tags ==>
                  && topic in r && g in r[topic]
                  && r[topic][g] == if g == tags[0] && g !in tags[1..] then Given(cb) else MovedFrom(cb))
            && (forall t, g :: Holds(subs, t, g) && !(t == topic && g in tags) ==>
                  Holds(r, t, g) && r[t][g] == subs[t][g])
  {
    hide PutAll;
    var r := PutAll(subs, topic, tags, cb);
    forall t, g ensures Holds(r, t, g) <==> Holds(subs, t, g) || (t == topic && g in tags) {
      PutAllHolds(subs, topic, tags, cb, t, g);
    }
    forall g | g in tags
      ensures topic in r && g in r[topic]
      ensures r[topic][g] == if g == tags[0] && g !in tags[1..] then Given(cb) else MovedFrom(cb)
    {
      PutAllHolds(subs, topic, tags, cb, topic, g);
    }
    forall t, g | Holds(subs, t, g) && !(t == topic && g in tags) ensures Holds(r, t, g) && r[t][g] == subs[t][g]
    {
      PutAllHolds(subs, topic, tags, cb, t, g);
    }
  }

  lemma DropSays(subs: SubCallbacks, topic: string, tags: seq<string>)
    ensures var r := Drop(subs, topic, tags);
            && (forall t, g :: Holds(r, t, g) <==> Holds(subs, t, g) && !(t == topic && g in tags))
            && (forall t, g :: Holds(r, t, g) ==> Holds(subs, t, g) && r[t][g] == subs[t][g])
  {
    hide Drop;
    var r := Drop(subs, topic, tags);
    forall t, g ensures Holds(r, t, g) <==> Holds(subs, t, g) && !(t == topic && g in tags) {
      DropHolds(subs, topic, tags, t, g);
    }
    forall t, g | Holds(r, t, g) ensures Holds(subs, t, g) && r[t][g] == subs[t][g] {
      DropHolds(subs, topic, tags, t, g);
    }
  }

  lemma PutHolds(subs: SubCallbacks, topic: string, tag: string, cb: SubCallback, t: string, g: string)
    ensures var r := Put(subs, topic, tag, cb);
            && (Holds(r, t, g) <==> Holds(subs, t, g) || (t == topic && g == tag))
            && (Holds(r, t, g) ==> t in r && g in r[t])
            && (Holds(r, t, g) && !(t == topic && g == tag) ==> t in subs && g in subs[t])
            && (Holds(r, t, g) ==> r[t][g] == if t == topic && g == tag then cb else subs[t][g])
  {
  }

  lemma StoredLast(front: seq<string>, last: string, g: string, cb: Callback)
    requires g == last || g in front
    ensures Stored(front + [last], g, cb) == if g == last then Turn(|front|, cb) else Stored(front, g, cb)
  {
    if front != [] {
      assert (front + [last])[1..] == front[1..] + [last];
    }
  }

  lemma {:induction false} PutAllNoEmpty(subs: SubCallbacks, topic: string, tags: seq<string>, cb: Callback)
    requires NoEmpty(subs)
    ensures NoEmpty(PutAll(subs, topic, tags, cb))
  {
    if tags == [] {
    } else {
      PutAllNoEmpty(subs, topic, tags[..|tags| - 1], cb);
      var before := PutAll(subs, topic, tags[..|tags| - 1], cb);
      assert tags[|tags| - 1] in Put(before, topic, tags[|tags| - 1], Turn(|tags| - 1, cb))[topic];
    }
  }

  /** After a subscribe the client holds the old keys and the named ones. */
  lemma PutAllKeys(subs: SubCallbacks, topic: string, text: string, cb: Callback)
    ensures KeySet(PutAll(subs, topic, Split(text), cb)) == KeySet(subs) + Reconnect.Keys(topic, text)
  {
    hide PutAll, KeySet, Split;
    var r := PutAll(subs, topic, Split(text), cb);
    forall k: Key ensures k in KeySet(r) <==> k in KeySet(subs) + Reconnect.Keys(topic, text) {
      PutAllHolds(subs, topic, Split(text), cb, k.topic, k.tag);
      HoldsIsKey(r, k.topic, k.tag);
      HoldsIsKey(subs, k.topic, k.tag);
      assert k == Reconnect.Key(k.topic, k.tag);
      Reconnect.KeysIn(topic, text, k);
    }
  }

  lemma DropHolds(subs: SubCallbacks, topic: string, tags: seq<string>, t: string, g: string)
    ensures var r := Drop(subs, topic, tags);
            && (Holds(r, t, g) <==> Holds(subs, t, g) && !(t == topic && g in tags))
            && (Holds(r, t, g) ==> r[t][g] == subs[t][g])
            && (NoEmpty(subs) ==> NoEmpty(r))
  {
    if topic in subs {
      var left := subs[topic] - (set h | h in tags);
      assert g in left <==> g in subs[topic] && g !in tags;
    }
  }

  /** After a cancel the client holds the old keys without the named ones, and the topic itself only
      while something is left under it. */
  lemma DropKeys(subs: SubCallbacks, topic: string, text: string)
    ensures KeySet(Drop(subs, topic, Split(text))) == KeySet(subs) - Reconnect.Keys(topic, text)
  {
    hide Drop, KeySet, Split;
    var r := Drop(subs, topic, Split(text));
    forall k: Key ensures k in KeySet(r) <==> k in KeySet(subs) - Reconnect.Keys(topic, text) {
      DropHolds(subs, topic, Split(text), k.topic, k.tag);
      HoldsIsKey(r, k.topic, k.tag);
      HoldsIsKey(subs, k.topic, k.tag);
      assert k == Reconnect.Key(k.topic, k.tag);
      Reconnect.KeysIn(topic, text, k);
    }
  }

  lemma NoEmptyTopics(subs: SubCallbacks)
    requires NoEmpty(subs)
    ensures Reconnect.Topics(KeySet(subs)) == subs.Keys
    ensures forall t :: t in subs ==> Reconnect.TagsOf(KeySet(subs), t) == subs[t].Keys
  {
    forall t | t in subs ensures t in Reconnect.Topics(KeySet(subs)) {
      var g := SomeKey(subs[t]);
      assert Reconnect.Key(t, g) in KeySet(subs);
    }
    forall t | t in subs ensures Reconnect.TagsOf(KeySet(subs), t) == subs[t].Keys {
      forall g | g in subs[t] ensures g in Reconnect.TagsOf(KeySet(subs), t) {
        assert Reconnect.Key(t, g) in KeySet(subs);
      }
    }
  }

  class RpcClient {
    const out: Outbox<Packet>
    var subCb: SubCallbacks
    var reqCb: map<nat, Callback>
    var messageId: nat

    constructor ()
      ensures Ok() && fresh(out) && out.queue == [] && subCb == map[] && reqCb == map[] && messageId == 1
    {
      out := new Outbox();
      subCb, reqCb, messageId := map[], map[], 1;
    }

    ghost predicate Ok()
      reads this, out
    {
      out.Ok() && NoEmpty(subCb) && FromSplits(subCb) && messageId >= 1
      && forall id :: id in reqCb ==> 1 <= id < messageId
    }

    method Subscribe(topic: string, tags: string, callBack: Callback)
      requires Ok()
      modifies `subCb, out
      ensures Ok() && subCb == PutAll(old(subCb), topic, Split(tags), callBack)
      ensures KeySet(subCb) == old(KeySet(subCb)) + Reconnect.Keys(topic, tags)
      ensures forall t, g :: Holds(subCb, t, g) <==> Holds(old(subCb), t, g) || (t == topic && g in Split(tags))
      // the first tag gets the callback, unless it is named again; later ones get its moved-from remains
      ensures forall g :: g in Split(tags) ==>
                && topic in subCb && g in subCb[topic]
                && subCb[topic][g] == if g == Split(tags)[0] && g !in Split(tags)[1..] then Given(callBack)
                                      else MovedFrom(callBack)
      ensures forall t, g :: Holds(old(subCb), t, g) && !(t == topic && g in Split(tags)) ==>
                               Holds(subCb, t, g) && subCb[t][g] == old(subCb)[t][g]
      ensures out.queue == old(out.queue) + [Reconnect.Sub(topic, tags)]
    {
      hide Put, KeySet, Split, HasSeparator;
      SplitTagsHaveNoSeparator(tags);
      var tagS := SplitTagString(tags);
      for i := 0 to |tagS|
        invariant subCb == PutAll(old(subCb), topic, tagS[..i], callBack)
        invariant unchanged(out)
      {
        assert tagS[..i + 1][..i] == tagS[..i];
        subCb := Put(subCb, topic, tagS[i], Turn(i, callBack));
      }
      assert tagS[..|tagS|] == tagS;
      PutAllNoEmpty(old(subCb), topic, tagS, callBack);
      PutAllKeys(old(subCb), topic, tags, callBack);
      PutAllSays(old(subCb), topic, tagS, callBack);
      out.Write(Reconnect.Sub(topic, tags));
    }

    /** Nothing is sent for a topic without callbacks, but for absent tags of a present topic it is. */
    method CancelSubscribe(topic: string, tags: string)
      requires Ok()
      modifies `subCb, out
      ensures Ok() && subCb == Drop(old(subCb), topic, Split(tags))
      ensures KeySet(subCb) == old(KeySet(subCb)) - Reconnect.Keys(topic, tags)
      ensures forall t, g :: Holds(subCb, t, g) <==> Holds(old(subCb), t, g) && !(t == topic && g in Split(tags))
      ensures forall t, g :: Holds(subCb, t, g) ==> Holds(old(subCb), t, g) && subCb[t][g] == old(subCb)[t][g]
      ensures out.queue == old(out.queue) + if topic in old(subCb) then [Reconnect.Cancel(topic, tags)] else []
    {
      hide KeySet, Split;
      var tagS := SplitTagString(tags);
      DropKeys(subCb, topic, tags);
      DropSays(subCb, topic, tagS);
      if topic !in subCb {
        return;
      }
      Forget(topic, tagS);
      out.Write(Reconnect.Cancel(topic, tags));
    }

    method Forget(topic: string, tagS: seq<string>)
      requires topic in subCb
      modifies `subCb
      ensures subCb == Drop(old(subCb), topic, tagS)
      ensures old(NoEmpty(subCb)) ==> NoEmpty(subCb)
    {
      var tagFunc := subCb[topic];
      for i := 0 to |tagS|
        invariant tagFunc == subCb[topic] - (set g | g in tagS[..i])
      {
        tagFunc := tagFunc - {tagS[i]};
        assert tagS[..i + 1] == tagS[..i] + [tagS[i]];
      }
      assert tagS[..|tagS|] == tagS;
      if tagFunc == map[] {
        subCb := subCb - {topic};
      } else {
        subCb := subCb[topic := tagFunc];
      }
    }

    /** Allots the next id; a null callback leaves no entry. */
    method BindCb(callBack: Option<Callback>) returns (id: nat)
      requires Ok()
      modifies `reqCb, `messageId
      ensures Ok() && id == old(messageId) && messageId == old(messageId) + 1 && id !in old(reqCb)
      ensures reqCb == if callBack.Some? then old(reqCb)[id := callBack.value] else old(reqCb)
    {
      if callBack.Some? {
        reqCb := reqCb[messageId := callBack.value];
      }
      id := messageId;
      messageId := messageId + 1;
    }

    method RemoteCallAsync(name: string, content: string, callBack: Option<Callback>)
      requires Ok()
      modifies `reqCb, `messageId, out
      ensures Ok() && out.queue == old(out.queue) + [Reconnect.Other(old(messageId), name, content)]
      ensures reqCb == if callBack.Some? then old(reqCb)[old(messageId) := callBack.value] else old(reqCb)
      ensures messageId == old(messageId) + 1
    {
      var id := BindCb(callBack);
      out.Write(Reconnect.Other(id, name, content));
    }

    /** A response: the callback that will run is the one bound to this id, and it is gone from the
        map before it runs. */
    method DealResponse(id: nat) returns (called: Option<Callback>)
      requires Ok()
      modifies `reqCb
      ensures Ok() && reqCb == old(reqCb) - {id}
      ensures called == if id in old(reqCb) then Some(old(reqCb)[id]) else None
    {
      if id !in reqCb {
        assert reqCb - {id} == reqCb;
        return None;
      }
      called := Some(reqCb[id]);
      reqCb := reqCb - {id};
    }

    /** A publication reaches the callback of its own topic and tag, or none. */
    method DealPublication(topic: string, tag: string) returns (called: Option<SubCallback>)
      ensures called.Some? <==> topic in subCb && tag in subCb[topic]
      ensures called.Some? <==> Reconnect.Key(topic, tag) in KeySet(subCb)
      ensures called.Some? ==> called.value == subCb[topic][tag]
    {
      HoldsIsKey(subCb, topic, tag);
      if topic !in subCb {
        return None;
      }
      var tagFunc := subCb[topic];
      if tag in tagFunc {
        return Some(tagFunc[tag]);
      }
      return None;
    }

    /** One turn of re_subscribe's outer loop. */
    method SendTopic(topic: string) returns (ghost order: seq<string>)
      requires Ok() && topic in subCb && out.writer.Resuming?
      modifies out
      ensures Ok() && out.writer.Resuming? && out.queue == old(out.queue) + [Reconnect.Sub(topic, Join(order))]
      ensures Iterates(order, subCb[topic].Keys)
    {
      hide Iterates, Join, NoEmpty;
      var tagOrder := Iterate(subCb[topic].Keys);
      order := tagOrder;
      var tags := JoinTags(tagOrder);
      out.IdleWhenEmpty();
      out.Write(Reconnect.Sub(topic, tags));
      assert out.View().agents[WRITER] == SendQueue.Resubscribing;
    }

    /** One subscribe packet per topic behind whatever is queued, each with the topic's tags joined in
        some order, then the failed front is sent again. The new packets alone subscribe an empty
        session to exactly the client's keys iff each names exactly its topic's tags, as each does if
        every topic's tags are safe. */
    method ReSubscribe() returns (ghost topics: seq<string>, ghost orders: seq<seq<string>>)
      requires Ok() && out.writer.Resuming?
      modifies out
      ensures Ok() && old(out.queue) != [] && out.writer == InFlight(old(out.queue)[0])
      ensures Iterates(topics, subCb.Keys) && OrdersOf(subCb, topics, orders)
      ensures out.queue == old(out.queue) + Packets(topics, orders)
      ensures Reconnect.Replay({}, Packets(topics, orders)) == KeySet(subCb) <==> AllRestored(subCb, topics, orders)
      ensures (forall t :: t in subCb ==> SafeTags(subCb[t].Keys)) ==> AllRestored(subCb, topics, orders)
    {
      hide KeySet, NoEmpty, Join, SendQueue.Inv, SafeTags, FromSplits, Reconnect.Replay;
      hide SentFor, Packets, OrdersOf, AllRestored;
      out.IdleWhenEmpty();
      topics, orders := [], [];
      var todo := subCb.Keys;
      NothingSentFor(subCb);
      while todo != {}
        invariant Ok() && out.writer.Resuming? && SentFor(subCb, topics, orders, todo)
        invariant |orders| == |topics| && out.queue == old(out.queue) + Packets(topics, orders)
      {
        ghost var any := SomeMember(todo);
        var topic :| topic in todo;
        SentForTodo(subCb, topics, orders, todo);
        ghost var order := SendTopic(topic);
        SentForOneMore(subCb, topics, orders, todo, topic, order);
        PacketsLast(topics, orders, topic, order);
        topics, orders := topics + [topic], orders + [order];
        todo := todo - {topic};
      }
      SentForAll(subCb, topics, orders);
      out.Resume();
      AllSent(subCb, topics, orders);
    }
  }

  ghost predicate OrdersOf(subs: SubCallbacks, topics: seq<string>, orders: seq<seq<string>>) {
    && |orders| == |topics|
    && forall i :: 0 <= i < |topics| ==> topics[i] in subs && Iterates(orders[i], subs[topics[i]].Keys)
  }

  /** re_subscribe's outer loop is done with these topics, each once, and not with those to do. */
  ghost predicate SentFor(subs: SubCallbacks, topics: seq<string>, orders: seq<seq<string>>, todo: set<string>) {
    && todo <= subs.Keys && |topics| + |todo| == |subs.Keys| && (set t | t in topics) == subs.Keys - todo
    && OrdersOf(subs, topics, orders)
  }

  lemma NothingSentFor(subs: SubCallbacks)
    ensures SentFor(subs, [], [], subs.Keys)
    ensures Packets([], []) == []
  {
  }

  lemma SentForTodo(subs: SubCallbacks, topics: seq<string>, orders: seq<seq<string>>, todo: set<string>)
    requires SentFor(subs, topics, orders, todo)
    ensures todo <= subs.Keys && |orders| == |topics|
  {
  }

  lemma SentForOneMore(subs: SubCallbacks, topics: seq<string>, orders: seq<seq<string>>, todo: set<string>,
                       topic: string, order: seq<string>)
    requires SentFor(subs, topics, orders, todo) && topic in todo && topic in subs && Iterates(order, subs[topic].Keys)
    ensures SentFor(subs, topics + [topic], orders + [order], todo - {topic})
  {
    hide Iterates;
    assert (set t | t in topics + [topic]) == (set t | t in topics) + {topic};
  }

  lemma SentForAll(subs: SubCallbacks, topics: seq<string>, orders: seq<seq<string>>)
    requires SentFor(subs, topics, orders, {})
    ensures Iterates(topics, subs.Keys) && OrdersOf(subs, topics, orders)
  {
  }

  /** The packets of a whole re_subscribe. */
  function Packets(topics: seq<string>, orders: seq<seq<string>>): (r: seq<Packet>)
    requires |orders| == |topics|
    ensures |r| == |topics|
  {
    seq(|topics|, i requires 0 <= i < |topics| => Reconnect.Sub(topics[i], Join(orders[i])))
  }

  lemma PacketsLast(topics: seq<string>, orders: seq<seq<string>>, topic: string, order: seq<string>)
    requires |orders| == |topics|
    ensures Packets(topics + [topic], orders + [order]) == Packets(topics, orders) + [Reconnect.Sub(topic, Join(order))]
  {
    hide Join;
  }

  method Iterate(keys: set<string>) returns (order: seq<string>)
    ensures Iterates(order, keys)
  {
    order := [];
    var todo := keys;
    while todo != {}
      invariant todo <= keys && |order| + |todo| == |keys|
      invariant (set g | g in order) == keys - todo
    {
      ghost var any := SomeMember(todo);
      var key :| key in todo;
      assert (set g | g in order + [key]) == (set g | g in order) + {key};
      order := order + [key];
      todo := todo - {key};
    }
  }

  /** Every packet names exactly its topic's tags. */
  ghost predicate AllRestored(subs: SubCallbacks, topics: seq<string>, orders: seq<seq<string>>)
    requires OrdersOf(subs, topics, orders)
  {
    forall i :: 0 <= i < |topics| ==> TagSet(Join(orders[i])) == subs[topics[i]].Keys
  }

  /** Exactly when: the packets of a whole re_subscribe give an empty session the client's keys iff
      each of them names exactly its topic's tags; and they do, in whatever order, if all are safe. */
  lemma AllSent(subs: SubCallbacks, topics: seq<string>, orders: seq<seq<string>>)
    requires NoEmpty(subs) && FromSplits(subs) && Iterates(topics, subs.Keys) && OrdersOf(subs, topics, orders)
    ensures Reconnect.Replay({}, Packets(topics, orders)) == KeySet(subs) <==> AllRestored(subs, topics, orders)
    ensures (forall t :: t in subs ==> SafeTags(subs[t].Keys)) ==> AllRestored(subs, topics, orders)
  {
    hide NoEmpty, FromSplits, SafeTags, HasSeparator, Packets, Reconnect.Replay, Join, TagSet, Iterates;
    var sent := Reconnect.Replay({}, Packets(topics, orders));
    EachOnce(topics, subs.Keys);
    forall i, g | 0 <= i < |topics| ensures Reconnect.Key(topics[i], g) in sent <==> g in TagSet(Join(orders[i])) {
      TopicsSent(topics, orders, Reconnect.Key(topics[i], g));
    }
    forall k ensures k in sent ==> k.topic in topics {
      TopicsSent(topics, orders, k);
    }
    if AllRestored(subs, topics, orders) {
      forall k ensures k in sent <==> k in KeySet(subs) {
        if k.topic in topics {
          var i :| 0 <= i < |topics| && topics[i] == k.topic;
          assert k == Reconnect.Key(topics[i], k.tag);
        }
      }
    } else {
      var i :| 0 <= i < |topics| && TagSet(Join(orders[i])) != subs[topics[i]].Keys;
      var g :| g in TagSet(Join(orders[i])) <==> g !in subs[topics[i]].Keys;
      assert Reconnect.Key(topics[i], g) in KeySet(subs) <==> g in subs[topics[i]].Keys;
    }
    if forall t :: t in subs ==> SafeTags(subs[t].Keys) {
      forall i | 0 <= i < |topics| ensures TagSet(Join(orders[i])) == subs[topics[i]].Keys {
        SafeTopic(subs, topics[i], orders[i]);
      }
    }
  }

  lemma SafeTopic(subs: SubCallbacks, topic: string, order: seq<string>)
    requires NoEmpty(subs) && FromSplits(subs) && topic in subs && SafeTags(subs[topic].Keys)
    requires Iterates(order, subs[topic].Keys)
    ensures TagSet(Join(order)) == subs[topic].Keys
  {
    hide Join, TagSet, Iterates, SafeTags, HasSeparator;
    var g := SomeKey(subs[topic]);
    assert g in subs[topic].Keys;
    forall g | g in subs[topic].Keys ensures !HasSeparator(g) {
      assert Reconnect.Key(topic, g) in KeySet(subs);
    }
    SurvivesEveryOrder(subs[topic].Keys);
  }

  /** What the packets give an empty session. */
  lemma {:induction false} TopicsSent(topics: seq<string>, orders: seq<seq<string>>, k: Key)
    requires |orders| == |topics|
    ensures k in Reconnect.Replay({}, Packets(topics, orders)) <==>
              exists i :: 0 <= i < |topics| && topics[i] == k.topic && k.tag in TagSet(Join(orders[i]))
  {
    hide Join, Reconnect.Replay, Reconnect.Dealt;
    if topics == [] {
      NothingSent();
    } else {
      var n := |topics| - 1;
      var topic, order := topics[n], orders[n];
      TopicsSent(topics[..n], orders[..n], k);
      PacketsLast(topics[..n], orders[..n], topic, order);
      assert topics == topics[..n] + [topic] && orders == orders[..n] + [order];
      var before := Packets(topics[..n], orders[..n]);
      Reconnect.ReplayLast({}, before, Reconnect.Sub(topic, Join(order)));
      Reconnect.DealtIn(Reconnect.Replay({}, before), Reconnect.Sub(topic, Join(order)), k);
    }
  }

  lemma NothingSent()
    ensures Reconnect.Replay({}, []) == {}
  {
  }
}
