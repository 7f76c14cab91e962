/** The two subscription indexes as values: the server's topic -> tag -> sessions registry
    (include/rpc_server.hpp) and one session's topic -> tags map (include/rpc_server_session.hpp). */
module Registry {
  import opened Collections

  type Hash = int
  type Conns<S> = map<Hash, set<S>>
  type Registry<S> = map<Hash, Conns<S>>
  type Keys = map<Hash, set<Hash>>

  predicate Has<S>(reg: Registry<S>, t: Hash, g: Hash, s: S) {
    t in reg && g in reg[t] && s in reg[t][g]
  }

  predicate KeyIn(keys: Keys, t: Hash, g: Hash) {
    t in keys && g in keys[t]
  }

  function Pairs(keys: Keys): set<(Hash, Hash)> {
    set t, g | t in keys && g in keys[t] :: (t, g)
  }

  /** No inner map and no set is ever kept empty. */
  ghost predicate Pruned<S>(reg: Registry<S>) {
    forall t :: t in reg ==> reg[t] != map[] && forall g :: g in reg[t] ==> reg[t][g] != {}
  }

  ghost predicate KeysPruned(keys: Keys) {
    forall t :: t in keys ==> keys[t] != {}
  }

  function TagsOf<S>(reg: Registry<S>, t: Hash): Conns<S> {
    if t in reg then reg[t] else map[]
  }

  function ConnsOf<S>(conns: Conns<S>, g: Hash): set<S> {
    if g in conns then conns[g] else {}
  }

  function AddTags<S>(conns: Conns<S>, tags: seq<Hash>, s: S): Conns<S> {
    if tags == [] then conns
    else
      var rest := AddTags(conns, tags[..|tags| - 1], s);
      var g := tags[|tags| - 1];
      rest[g := ConnsOf(rest, g) + {s}]
  }

  lemma AddTagsNext<S>(conns: Conns<S>, tags: seq<Hash>, i: nat, s: S)
    requires i < |tags|
    ensures var before, after := AddTags(conns, tags[..i], s), AddTags(conns, tags[..i + 1], s);
            after == before[tags[i] := if tags[i] in before then before[tags[i]] + {s} else {s}]
  {
    assert tags[..i + 1][..i] == tags[..i];
    assert {} + {s} == {s};
  }

  /** add_subscribe: one critical section for the whole tag list. */
  function Add<S>(reg: Registry<S>, t: Hash, tags: seq<Hash>, s: S): Registry<S> {
    reg[t := AddTags(TagsOf(reg, t), tags, s)]
  }

  /** remove_subscribe: one tag; an emptied set and then an emptied inner map go too. */
  function Remove<S>(reg: Registry<S>, t: Hash, g: Hash, s: S): Registry<S> {
    if t !in reg || g !in reg[t] then reg
    else
      var left := reg[t][g] - {s};
      if left != {} then reg[t := reg[t][g := left]]
      else
        var conns := reg[t] - {g};
        if conns == map[] then reg - {t} else reg[t := conns]
  }

  /** A session's own record of a subscribe command. */
  function KeysAdd(keys: Keys, t: Hash, tags: seq<Hash>): Keys {
    keys[t := (if t in keys then keys[t] else {}) + (set g | g in tags)]
  }

  /** A session's own record of a cancel command. */
  function KeysCancel(keys: Keys, t: Hash, tags: seq<Hash>): Keys {
    if t !in keys then keys
    else
      var left := keys[t] - (set g | g in tags);
      if left == {} then keys - {t} else keys[t := left]
  }

  lemma {:induction false} AddTagsHas<S>(conns: Conns<S>, tags: seq<Hash>, s: S, g: Hash, x: S)
    ensures x in ConnsOf(AddTags(conns, tags, s), g) <==> x in ConnsOf(conns, g) || (x == s && g in tags)
  {
    if tags == [] {
    } else {
      AddTagsHas(conns, tags[..|tags| - 1], s, g, x);
      assert tags == tags[..|tags| - 1] + [tags[|tags| - 1]];
    }
  }

  lemma {:induction false} AddTagsPruned<S>(conns: Conns<S>, tags: seq<Hash>, s: S)
    requires forall g :: g in conns ==> conns[g] != {}
    ensures forall g :: g in AddTags(conns, tags, s) ==> AddTags(conns, tags, s)[g] != {}
    ensures tags != [] ==> AddTags(conns, tags, s) != map[]
  {
    if tags == [] {
    } else {
      AddTagsPruned(conns, tags[..|tags| - 1], s);
      var r := AddTags(conns, tags, s);
      assert tags[|tags| - 1] in r;
    }
  }

  /** A subscribe registers this session under these tags and nothing else. */
  lemma AddHas<S>(reg: Registry<S>, t: Hash, tags: seq<Hash>, s: S, t': Hash, g: Hash, x: S)
    ensures Has(Add(reg, t, tags, s), t', g, x) <==> Has(reg, t', g, x) || (t' == t && x == s && g in tags)
  {
    AddTagsHas(TagsOf(reg, t), tags, s, g, x);
  }

  lemma AddPruned<S>(reg: Registry<S>, t: Hash, tags: seq<Hash>, s: S)
    requires Pruned(reg) && tags != []
    ensures Pruned(Add(reg, t, tags, s))
  {
    AddTagsPruned(TagsOf(reg, t), tags, s);
  }

  /** A removal unregisters this session under this tag and nothing else. */
  lemma RemoveHas<S>(reg: Registry<S>, t: Hash, g: Hash, s: S, t': Hash, g': Hash, x: S)
    ensures Has(Remove(reg, t, g, s), t', g', x) <==> Has(reg, t', g', x) && !(t' == t && g' == g && x == s)
  {
    if t in reg && g in reg[t] {
      assert x in reg[t][g] - {s} <==> x in reg[t][g] && x != s;
      assert g' in reg[t] - {g} <==> g' in reg[t] && g' != g;
    }
  }

  lemma RemovePruned<S>(reg: Registry<S>, t: Hash, g: Hash, s: S)
    requires Pruned(reg)
    ensures Pruned(Remove(reg, t, g, s))
  {
  }

  lemma KeysAddIn(keys: Keys, t: Hash, tags: seq<Hash>, t': Hash, g: Hash)
    ensures KeyIn(KeysAdd(keys, t, tags), t', g) <==> KeyIn(keys, t', g) || (t' == t && g in tags)
  {
  }

  lemma KeysCancelIn(keys: Keys, t: Hash, tags: seq<Hash>, t': Hash, g: Hash)
    ensures KeyIn(KeysCancel(keys, t, tags), t', g) <==> KeyIn(keys, t', g) && !(t' == t && g in tags)
  {
    if t in keys {
      assert g in keys[t] - (set h | h in tags) <==> g in keys[t] && g !in tags;
    }
  }

  lemma KeysStayPruned(keys: Keys, t: Hash, tags: seq<Hash>)
    requires KeysPruned(keys)
    ensures tags != [] ==> KeysPruned(KeysAdd(keys, t, tags))
    ensures KeysPruned(KeysCancel(keys, t, tags))
  {
    if tags != [] {
      assert tags[0] in KeysAdd(keys, t, tags)[t];
    }
  }

  /** Pruning leaves no slack: who is registered where determines the whole structure. */
  lemma PrunedIsCanonical<S>(a: Registry<S>, b: Registry<S>)
    requires Pruned(a) && Pruned(b)
    requires forall t, g, s: S :: Has(a, t, g, s) <==> Has(b, t, g, s)
    ensures a == b
  {
    SameTopics(a, b);
    SameTopics(b, a);
    forall t | t in a ensures a[t] == b[t] {
      forall g | g in a[t] ensures g in b[t] && a[t][g] == b[t][g] {
        forall s ensures s in a[t][g] <==> g in b[t] && s in b[t][g] {
          assert Has(a, t, g, s) <==> Has(b, t, g, s);
        }
        var s :| s in a[t][g];
      }
      forall g | g in b[t] ensures g in a[t] {
        var s :| s in b[t][g];
        assert Has(b, t, g, s);
        assert Has(a, t, g, s);
      }
    }
  }

  lemma SameTopics<S>(a: Registry<S>, b: Registry<S>)
    requires Pruned(a)
    requires forall t, g, s: S :: Has(a, t, g, s) ==> Has(b, t, g, s)
    ensures a.Keys <= b.Keys
  {
    forall t | t in a ensures t in b {
      var g := SomeKey(a[t]);
      var s :| s in a[t][g];
      assert Has(a, t, g, s);
    }
  }

  /** Taking back a fresh subscription restores the registry, empty entries included. */
  lemma RemoveUndoesAdd<S>(reg: Registry<S>, t: Hash, g: Hash, s: S)
    requires Pruned(reg) && !Has(reg, t, g, s)
    ensures Remove(Add(reg, t, [g], s), t, g, s) == reg
  {
    var added := Add(reg, t, [g], s);
    AddPruned(reg, t, [g], s);
    RemovePruned(added, t, g, s);
    forall t', g', x ensures Has(Remove(added, t, g, s), t', g', x) <==> Has(reg, t', g', x) {
      AddHas(reg, t, [g], s, t', g', x);
      RemoveHas(added, t, g, s, t', g', x);
    }
    PrunedIsCanonical(Remove(added, t, g, s), reg);
  }

  // ---------------------------------------------------------------- several removals

  /** A cancel command: one removal per tag. */
  function RemoveAll<S>(reg: Registry<S>, t: Hash, tags: seq<Hash>, s: S): Registry<S> {
    if tags == [] then reg
    else Remove(RemoveAll(reg, t, tags[..|tags| - 1], s), t, tags[|tags| - 1], s)
  }

  lemma {:induction false} RemoveAllHas<S>(reg: Registry<S>, t: Hash, tags: seq<Hash>, s: S, t': Hash, g: Hash, x: S)
    ensures Has(RemoveAll(reg, t, tags, s), t', g, x) <==> Has(reg, t', g, x) && !(t' == t && x == s && g in tags)
  {
    if tags == [] {
    } else {
      var front, last := tags[..|tags| - 1], tags[|tags| - 1];
      RemoveAllHas(reg, t, front, s, t', g, x);
      RemoveHas(RemoveAll(reg, t, front, s), t, last, s, t', g, x);
      assert tags == front + [last];
    }
  }

  lemma {:induction false} RemoveAllPruned<S>(reg: Registry<S>, t: Hash, tags: seq<Hash>, s: S)
    requires Pruned(reg)
    ensures Pruned(RemoveAll(reg, t, tags, s))
  {
    if tags == [] {
    } else {
      RemoveAllPruned(reg, t, tags[..|tags| - 1], s);
      RemovePruned(RemoveAll(reg, t, tags[..|tags| - 1], s), t, tags[|tags| - 1], s);
    }
  }

  function Registered<S>(reg: Registry<S>, t: Hash, g: Hash): set<S> {
    ConnsOf(TagsOf(reg, t), g)
  }

  /** `reg'` is `reg` with one session taken out of exactly these entries. */
  ghost predicate TakenOut<S>(reg: Registry<S>, reg': Registry<S>, s: S, pairs: set<(Hash, Hash)>) {
    forall t, g :: Registered(reg', t, g) == Registered(reg, t, g) - (if (t, g) in pairs then {s} else {})
  }

  lemma RemoveRegistered<S>(reg: Registry<S>, t: Hash, g: Hash, s: S, t': Hash, g': Hash)
    ensures Registered(Remove(reg, t, g, s), t', g')
         == Registered(reg, t', g') - (if (t', g') == (t, g) then {s} else {})
  {
    var l := Registered(Remove(reg, t, g, s), t', g');
    var r := Registered(reg, t', g');
    forall x ensures x in l <==> x in r && !(t' == t && g' == g && x == s) {
      RemoveHas(reg, t, g, s, t', g', x);
      assert x in l <==> Has(Remove(reg, t, g, s), t', g', x);
      assert x in r <==> Has(reg, t', g', x);
    }
  }

  lemma NothingTakenOut<S>(reg: Registry<S>, s: S)
    ensures TakenOut(reg, reg, s, {})
  {
  }

  lemma RemoveTakesOut<S>(reg: Registry<S>, mid: Registry<S>, s: S, pairs: set<(Hash, Hash)>, t: Hash, g: Hash)
    requires TakenOut(reg, mid, s, pairs)
    ensures TakenOut(reg, Remove(mid, t, g, s), s, pairs + {(t, g)})
  {
    hide Remove, Registered;
    var reg' := Remove(mid, t, g, s);
    forall t', g'
      ensures Registered(reg', t', g') == Registered(reg, t', g') - (if (t', g') in pairs + {(t, g)} then {s} else {})
    {
      RemoveRegistered(mid, t, g, s, t', g');
    }
  }

  lemma TakenOutHas<S>(reg: Registry<S>, reg': Registry<S>, s: S, pairs: set<(Hash, Hash)>, t: Hash, g: Hash)
    requires TakenOut(reg, reg', s, pairs)
    ensures Has(reg', t, g, s) <==> Has(reg, t, g, s) && (t, g) !in pairs
    ensures forall x: S :: x != s ==> (Has(reg', t, g, x) <==> Has(reg, t, g, x))
  {
    assert Registered(reg', t, g) == Registered(reg, t, g) - (if (t, g) in pairs then {s} else {});
    forall x: S ensures (Has(reg', t, g, x) <==> x in Registered(reg', t, g)) &&
          (Has(reg, t, g, x) <==> x in Registered(reg, t, g)) {}
  }
}
