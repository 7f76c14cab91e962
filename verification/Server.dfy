/** The server's registry (include/rpc_server.hpp) and its sessions (include/rpc_server_session.hpp)
    as the objects they are. Each method is one uninterrupted call; ServerProtocol and Broadcast say
    what happens when calls of many threads interleave. */
module Server {
  import opened Collections
  import opened Registry
  import opened TagStrings
  import opened Outboxes
  import SendQueue

  datatype Packet = Packet(topic: string, tag: string, body: string)

  type Hasher = string -> int

  ghost predicate QueuesOk(subscribers: set<Session>)
    reads set s | s in subscribers :: s.pub
  {
    && (forall s :: s in subscribers ==> s.pub.Ok())
    && forall a, b :: a in subscribers && b in subscribers && a.pub == b.pub ==> a == b
  }

  class Session {
    const server: RpcServer
    const pub: Outbox<Packet>
    var subscribeKeysHash: Keys
    var enablePublish: bool
    var open: bool

    constructor (server: RpcServer)
      ensures this.server == server && fresh(pub) && pub.Ok() && pub.queue == []
      ensures subscribeKeysHash == map[] && !enablePublish && open
    {
      this.server := server;
      pub := new Outbox();
      subscribeKeysHash := map[];
      enablePublish, open := false, true;
    }

    /** This session is registered under exactly the keys of its own record. */
    ghost predicate Agrees()
      reads this, server
    {
      forall t, g :: Has(server.subConn, t, g, this) <==> KeyIn(subscribeKeysHash, t, g)
    }

    method DealSubscribe(hash: Hasher, name: string, buf: string)
      modifies server, `subscribeKeysHash
      ensures server.subConn == Add(old(server.subConn), hash(name), Hashes(hash, Split(buf)), this)
      ensures subscribeKeysHash == KeysAdd(old(subscribeKeysHash), hash(name), Hashes(hash, Split(buf)))
      ensures forall t, g, x: Session ::
                Has(server.subConn, t, g, x) <==>
                  Has(old(server.subConn), t, g, x) || (x == this && t == hash(name) && g in Hashes(hash, Split(buf)))
      ensures old(Agrees()) ==> Agrees()
    {
      hide Add, Split;
      var topicHash := hash(name);
      var tagsHash := SplitTagHash(hash, buf);
      ghost var reg, keys := server.subConn, subscribeKeysHash;
      server.AddSubscribe(topicHash, tagsHash, this);

      var tas: set<Hash> := if topicHash in subscribeKeysHash then subscribeKeysHash[topicHash] else {};
      for i := 0 to |tagsHash|
        invariant tas == (if topicHash in keys then keys[topicHash] else {}) + (set g | g in tagsHash[..i])
      {
        tas := tas + {tagsHash[i]};
        assert tagsHash[..i + 1] == tagsHash[..i] + [tagsHash[i]];
      }
      assert tagsHash[..|tagsHash|] == tagsHash;
      subscribeKeysHash := subscribeKeysHash[topicHash := tas];
      forall t, g, x: Session ensures Has(server.subConn, t, g, x) <==>
          Has(reg, t, g, x) || (x == this && t == topicHash && g in tagsHash) {
        AddHas(reg, topicHash, tagsHash, this, t, g, x);
      }
      forall t, g ensures KeyIn(subscribeKeysHash, t, g) <==> KeyIn(keys, t, g) || (t == topicHash && g in tagsHash) {
        KeysAddIn(keys, topicHash, tagsHash, t, g);
      }
    }

    method DealCancel(hash: Hasher, name: string, buf: string)
      modifies server, `subscribeKeysHash
      ensures server.subConn == RemoveAll(old(server.subConn), hash(name), Hashes(hash, Split(buf)), this)
      ensures subscribeKeysHash == KeysCancel(old(subscribeKeysHash), hash(name), Hashes(hash, Split(buf)))
      ensures forall t, g, x: Session ::
                Has(server.subConn, t, g, x) <==>
                  Has(old(server.subConn), t, g, x) && !(x == this && t == hash(name) && g in Hashes(hash, Split(buf)))
      ensures old(Agrees()) ==> Agrees()
    {
      hide Split, Remove;
      var topicHash := hash(name);
      var tagsHash := SplitTagHash(hash, buf);
      ghost var reg, keys := server.subConn, subscribeKeysHash;
      for i := 0 to |tagsHash|
        invariant server.subConn == RemoveAll(reg, topicHash, tagsHash[..i], this)
        invariant subscribeKeysHash == keys
      {
        server.RemoveSubscribe(topicHash, tagsHash[i], this);
        assert tagsHash[..i + 1][..i] == tagsHash[..i];
      }
      assert tagsHash[..|tagsHash|] == tagsHash;
      ForgetTags(topicHash, tagsHash);
      forall t, g, x: Session ensures Has(server.subConn, t, g, x) <==>
          Has(reg, t, g, x) && !(x == this && t == topicHash && g in tagsHash) {
        RemoveAllHas(reg, topicHash, tagsHash, this, t, g, x);
      }
      forall t, g ensures KeyIn(subscribeKeysHash, t, g) <==> KeyIn(keys, t, g) && !(t == topicHash && g in tagsHash) {
        KeysCancelIn(keys, topicHash, tagsHash, t, g);
      }
    }

    /** The session's own half of a cancel. */
    method ForgetTags(topicHash: Hash, tagsHash: seq<Hash>)
      modifies `subscribeKeysHash
      ensures subscribeKeysHash == KeysCancel(old(subscribeKeysHash), topicHash, tagsHash)
    {
      if topicHash !in subscribeKeysHash {
        return;
      }
      var left := subscribeKeysHash[topicHash];
      for i := 0 to |tagsHash|
        invariant left == subscribeKeysHash[topicHash] - (set g | g in tagsHash[..i])
      {
        left := left - {tagsHash[i]};
        assert tagsHash[..i + 1] == tagsHash[..i] + [tagsHash[i]];
      }
      assert tagsHash[..|tagsHash|] == tagsHash;
      if left == {} {
        subscribeKeysHash := subscribeKeysHash - {topicHash};
      } else {
        subscribeKeysHash := subscribeKeysHash[topicHash := left];
      }
    }

    /** Takes the session out of every registration of its own record, in whatever order the maps
        are walked, and nothing else. */
    method FreeRc()
      modifies server, `subscribeKeysHash, `open
      ensures TakenOut(old(server.subConn), server.subConn, this, Pairs(old(subscribeKeysHash)))
      ensures forall t, g, x: Session ::
                Has(server.subConn, t, g, x) <==>
                  Has(old(server.subConn), t, g, x) && !(x == this && KeyIn(old(subscribeKeysHash), t, g))
      ensures old(Pruned(server.subConn)) ==> Pruned(server.subConn)
      ensures subscribeKeysHash == map[] && !open
      ensures old(Agrees()) ==> Agrees()
    {
      hide Remove, Registered, TakenOut, Pruned, Has, KeyIn;
      open := false;
      ghost var reg, keys := server.subConn, subscribeKeysHash;
      ghost var done: set<(Hash, Hash)> := {};
      NothingTakenOut(reg, this);
      var topics := subscribeKeysHash.Keys;
      while topics != {}
        invariant subscribeKeysHash == keys && topics <= keys.Keys && !open
        invariant done == set t, g | t in keys && t !in topics && g in keys[t] :: (t, g)
        invariant TakenOut(reg, server.subConn, this, done)
        invariant Pruned(reg) ==> Pruned(server.subConn)
      {
        ghost var any := SomeMember(topics);
        var topic :| topic in topics;
        topics := topics - {topic};
        ghost var before := done;
        var tags := subscribeKeysHash[topic];
        while tags != {}
          invariant subscribeKeysHash == keys && tags <= keys[topic] && !open
          invariant done == before + set g | g in keys[topic] && g !in tags :: (topic, g)
          invariant TakenOut(reg, server.subConn, this, done)
          invariant Pruned(reg) ==> Pruned(server.subConn)
        {
          ghost var some := SomeMember(tags);
          var tag :| tag in tags;
          tags := tags - {tag};
          RemoveTakesOut(reg, server.subConn, this, done, topic, tag);
          if Pruned(reg) {
            RemovePruned(server.subConn, topic, tag, this);
          }
          server.RemoveSubscribe(topic, tag, this);
          done := done + {(topic, tag)};
        }
      }
      assert done == Pairs(keys);
      subscribeKeysHash := map[];
      NothingLeft(reg, keys);
      OthersStay(reg, keys);
    }

    lemma OthersStay(reg: Registry<Session>, keys: Keys)
      requires TakenOut(reg, server.subConn, this, Pairs(keys))
      ensures forall t, g, x: Session ::
                Has(server.subConn, t, g, x) <==> Has(reg, t, g, x) && !(x == this && KeyIn(keys, t, g))
    {
      forall t, g, x: Session
        ensures Has(server.subConn, t, g, x) <==> Has(reg, t, g, x) && !(x == this && KeyIn(keys, t, g))
      {
        TakenOutHas(reg, server.subConn, this, Pairs(keys), t, g);
      }
    }

    lemma NothingLeft(reg: Registry<Session>, keys: Keys)
      requires TakenOut(reg, server.subConn, this, Pairs(keys)) && subscribeKeysHash == map[]
      ensures (forall t, g :: Has(reg, t, g, this) <==> KeyIn(keys, t, g)) ==> Agrees()
    {
      forall t, g ensures Has(server.subConn, t, g, this) <==> Has(reg, t, g, this) && (t, g) !in Pairs(keys) {
        TakenOutHas(reg, server.subConn, this, Pairs(keys), t, g);
      }
    }

    /** publish, that is publish_write: nobody else's queue is touched. */
    method Publish(p: Packet, ghost all: set<Session>)
      requires this in all && QueuesOk(all)
      modifies pub
      ensures QueuesOk(all) && pub.queue == old(pub.queue) + [p]
      ensures pub.writer == if old(pub.queue) == [] then InFlight(p) else old(pub.writer)
    {
      pub.Write(p);
    }

    /** The completion handler of a publication's write. */
    method PublishCompleted(ok: bool)
      requires pub.Ok() && pub.writer.InFlight?
      modifies pub, `open
      ensures pub.Ok() && old(pub.queue) == (if ok then [old(pub.writer).p] else []) + pub.queue
      ensures open == (ok && old(open))
      ensures old(pub.queue) != []
      ensures pub.writer == if !ok then Stuck(old(pub.queue)[0])
                            else if |old(pub.queue)| > 1 then InFlight(old(pub.queue)[1]) else Idle
    {
      pub.IdleWhenEmpty();
      pub.Complete(ok);
      if !ok {
        open := false;
      }
    }
  }

  class RpcServer {
    var subConn: Registry<Session>

    constructor ()
      ensures subConn == map[]
    {
      subConn := map[];
    }

    method AddSubscribe(topicHash: Hash, tagsHash: seq<Hash>, sess: Session)
      modifies this
      ensures subConn == Add(old(subConn), topicHash, tagsHash, sess)
    {
      hide AddTags;
      var tagConn: Conns<Session> := map[];
      NoTags(tagConn, sess);
      if topicHash !in subConn {
        for i := 0 to |tagsHash|
          invariant tagConn == AddTags(map[], tagsHash[..i], sess)
          invariant subConn == old(subConn)
        {
          AddTagsNext(map[], tagsHash, i, sess);
          AddedOnly(tagsHash[..i], sess, tagsHash[i]);
          assert {sess} + {sess} == {sess};
          assert tagsHash[i] in tagConn ==> tagConn == tagConn[tagsHash[i] := {sess}];
          if tagsHash[i] !in tagConn {
            tagConn := tagConn[tagsHash[i] := {sess}];
          }
        }
        assert tagsHash[..|tagsHash|] == tagsHash;
        subConn := subConn[topicHash := tagConn];
        return;
      }

      tagConn := subConn[topicHash];
      NoTags(tagConn, sess);
      for i := 0 to |tagsHash|
        invariant subConn == old(subConn)
        invariant tagConn == AddTags(subConn[topicHash], tagsHash[..i], sess)
      {
        AddTagsNext(subConn[topicHash], tagsHash, i, sess);
        if tagsHash[i] in tagConn {
          tagConn := tagConn[tagsHash[i] := tagConn[tagsHash[i]] + {sess}];
        } else {
          tagConn := tagConn[tagsHash[i] := {sess}];
        }
      }
      assert tagsHash[..|tagsHash|] == tagsHash;
      subConn := subConn[topicHash := tagConn];
    }

    method RemoveSubscribe(topicHash: Hash, tagHash: Hash, sess: Session)
      modifies this
      ensures subConn == Remove(old(subConn), topicHash, tagHash, sess)
    {
      if topicHash !in subConn {
        return;
      }
      var tagConn := subConn[topicHash];
      if tagHash !in tagConn {
        return;
      }
      var conns := tagConn[tagHash] - {sess};
      if conns != {} {
        subConn := subConn[topicHash := tagConn[tagHash := conns]];
        return;
      }
      tagConn := tagConn - {tagHash};
      if tagConn == map[] {
        subConn := subConn - {topicHash};
      } else {
        subConn := subConn[topicHash := tagConn];
      }
    }

    /** Whoever is registered under some tag of this topic. */
    ghost function Subscribers(topicHash: Hash): (r: set<Session>)
      reads this
      ensures topicHash in subConn ==>
                forall g, s :: g in subConn[topicHash] && s in subConn[topicHash][g] ==> s in r
      ensures forall s :: s in r ==>
                topicHash in subConn && exists g :: g in subConn[topicHash] && s in subConn[topicHash][g]
    {
      set g, s | topicHash in subConn && g in subConn[topicHash] && s in subConn[topicHash][g] :: s
    }

    /** One publication goes to the topic's "*" subscribers and then to the tag's, from one and the
        same registry, and to nobody else. Who is subscribed to both gets it twice; whom check_verify
        stops gets nothing. */
    method Publish(hash: Hasher, topic: string, tag: string, body: string, checkVerify: bool)
      requires QueuesOk(Subscribers(hash(topic)))
      modifies set s | s in Subscribers(hash(topic)) :: s.pub
      ensures QueuesOk(Subscribers(hash(topic)))
      ensures forall s :: s in Subscribers(hash(topic)) ==>
                var star, tagged := Has(subConn, hash(topic), hash("*"), s), Has(subConn, hash(topic), hash(tag), s);
                && (checkVerify && !s.enablePublish ==> s.pub.queue == old(s.pub.queue))
                && (!checkVerify || s.enablePublish ==>
                      && (star && tagged ==>
                            s.pub.queue == old(s.pub.queue) + [Packet(topic, "*", body), Packet(topic, tag, body)])
                      && (star && !tagged ==> s.pub.queue == old(s.pub.queue) + [Packet(topic, "*", body)])
                      && (!star && tagged ==> s.pub.queue == old(s.pub.queue) + [Packet(topic, tag, body)])
                      && (!star && !tagged ==> s.pub.queue == old(s.pub.queue)))
    {
      if hash(topic) !in subConn {
        return;
      }
      var tagConn := subConn[hash(topic)];
      Dispatch(tagConn, hash("*"), Packet(topic, "*", body), checkVerify, Subscribers(hash(topic)));
      Dispatch(tagConn, hash(tag), Packet(topic, tag, body), checkVerify, Subscribers(hash(topic)));
    }

    /** One turn of the lambda inside publish: the one place that looks at check_verify. */
    method DispatchTo(conn: Session, p: Packet, checkVerify: bool, ghost all: set<Session>)
      requires QueuesOk(all) && conn in all
      modifies conn.pub
      ensures QueuesOk(all)
      ensures !checkVerify || conn.enablePublish ==> conn.pub.queue == old(conn.pub.queue) + [p]
      ensures checkVerify && !conn.enablePublish ==> conn.pub.queue == old(conn.pub.queue)
      ensures forall s :: s in all && s != conn ==> s.pub.queue == old(s.pub.queue)
    {
      hide SendQueue.Inv;
      if !checkVerify || conn.enablePublish {
        conn.Publish(p, all);
      }
    }

    /** The lambda inside publish. */
    method Dispatch(tagConn: Conns<Session>, tagHash: Hash, p: Packet, checkVerify: bool, ghost all: set<Session>)
      requires QueuesOk(all) && ConnsOf(tagConn, tagHash) <= all
      modifies set s | s in ConnsOf(tagConn, tagHash) :: s.pub
      ensures QueuesOk(all)
      ensures forall s :: s in all ==>
                s.pub.queue == if tagHash in tagConn && s in tagConn[tagHash] && (!checkVerify || s.enablePublish)
                               then old(s.pub.queue) + [p] else old(s.pub.queue)
    {
      if tagHash !in tagConn {
        return;
      }
      hide QueuesOk;
      var conns := tagConn[tagHash];
      var todo := conns;
      while todo != {}
        invariant todo <= conns
        invariant QueuesOk(all)
        invariant forall s :: s in all && s in conns && s !in todo && (!checkVerify || s.enablePublish)
                    ==> s.pub.queue == old(s.pub.queue) + [p]
        invariant forall s :: s in all && !(s in conns && s !in todo && (!checkVerify || s.enablePublish))
                    ==> s.pub.queue == old(s.pub.queue)
      {
        ghost var any := SomeMember(todo);
        var conn :| conn in todo;
        DispatchTo(conn, p, checkVerify, all);
        todo := todo - {conn};
      }
    }
  }

  lemma NoTags(conns: Conns<Session>, s: Session)
    ensures AddTags(conns, [], s) == conns
  {
  }

  /** Into a new topic only this session is ever put. */
  lemma AddedOnly(tags: seq<Hash>, s: Session, g: Hash)
    ensures g in AddTags(map[], tags, s) ==> AddTags(map[], tags, s)[g] == {s}
  {
    var conns := AddTags(map[], tags, s);
    if g in conns {
      AddTagsPruned<Session>(map[], tags, s);
      forall x ensures x in conns[g] ==> x == s {
        AddTagsHas(map[], tags, s, g, x);
      }
      AddTagsHas(map[], tags, s, g, s);
      var x :| x in conns[g];
      assert x == s;
    }
  }
}
