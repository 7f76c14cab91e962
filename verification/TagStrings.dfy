/** Tag lists travel as one string with "||" between tags (include/rpc_common.hpp).
    The client keys its callbacks by the split strings, the server by the hashes of the split
    strings, and a reconnecting client joins its keys again. */
module TagStrings {
  import opened Collections

  predicate SeparatorAt(s: string, i: int) {
    0 <= i < |s| - 1 && s[i] == '|' && s[i + 1] == '|'
  }

  ghost predicate HasSeparator(s: string) {
    exists i :: SeparatorAt(s, i)
  }

  predicate EndsInBar(s: string) {
    s != "" && s[|s| - 1] == '|'
  }

  datatype Position = Npos | At(index: nat)

  /** std::string_view::find("||"): the first occurrence, from position `from` on. */
  function FindFrom(s: string, from: nat): (r: Position)
    requires from <= |s|
    ensures r.Npos? ==> forall i :: from <= i ==> !SeparatorAt(s, i)
    ensures r.At? ==> from <= r.index && SeparatorAt(s, r.index)
    ensures r.At? ==> forall i :: from <= i < r.index ==> !SeparatorAt(s, i)
    decreases |s| - from
  {
    if |s| < from + 2 then Npos
    else if SeparatorAt(s, from) then At(from)
    else FindFrom(s, from + 1)
  }

  function Find(s: string): (r: Position)
    ensures r.Npos? <==> !HasSeparator(s)
    ensures r.At? ==> r.index + 2 <= |s| && SeparatorAt(s, r.index)
    ensures r.At? ==> forall i :: 0 <= i < r.index ==> !SeparatorAt(s, i)
  {
    var r := FindFrom(s, 0);
    assert r.Npos? ==> forall i :: SeparatorAt(s, i) ==> 0 <= i;
    r
  }

  /** What both split loops compute. */
  function Split(tags: string): (r: seq<string>)
    ensures |r| >= 1
    decreases |tags|
  {
    match Find(tags)
    case Npos => [tags]
    case At(p) => [tags[..p]] + Split(tags[p + 2..])
  }

  /** What re_subscribe puts back together: every tag but the last is followed by "||". */
  function Join(tags: seq<string>): string {
    if |tags| == 0 then ""
    else if |tags| == 1 then tags[0]
    else tags[0] + "||" + Join(tags[1..])
  }

  function Hashes(hash: string -> int, tags: seq<string>): (r: seq<int>)
    ensures |r| == |tags|
    ensures forall i :: 0 <= i < |tags| ==> r[i] == hash(tags[i])
  {
    seq(|tags|, i requires 0 <= i < |tags| => hash(tags[i]))
  }

  method SplitTagString(text: string) returns (tagsStr: seq<string>)
    ensures tagsStr == Split(text)
  {
    var tags := text;
    tagsStr := [];
    var pos := Find(tags);
    while pos.At?
      invariant pos == Find(tags)
      invariant tagsStr + Split(tags) == Split(text)
      decreases |tags|
    {
      var tag := tags[..pos.index];
      tagsStr := tagsStr + [tag];
      tags := tags[pos.index + 2..];
      pos := Find(tags);
    }
    tagsStr := tagsStr + [tags];
  }

  lemma HashesLast(hash: string -> int, tags: seq<string>, tag: string)
    ensures Hashes(hash, tags + [tag]) == Hashes(hash, tags) + [hash(tag)]
  {
  }

  method SplitTagHash(hash: string -> int, text: string) returns (tagsHash: seq<int>)
    ensures tagsHash == Hashes(hash, Split(text))
  {
    hide Hashes;
    var tags := text;
    ghost var done: seq<string> := [];
    tagsHash := [];
    var pos := Find(tags);
    while pos.At?
      invariant pos == Find(tags)
      invariant done + Split(tags) == Split(text)
      invariant tagsHash == Hashes(hash, done)
      decreases |tags|
    {
      var tag := tags[..pos.index];
      HashesLast(hash, done, tag);
      tagsHash := tagsHash + [hash(tag)];
      done := done + [tag];
      tags := tags[pos.index + 2..];
      pos := Find(tags);
    }
    HashesLast(hash, done, tags);
    tagsHash := tagsHash + [hash(tags)];
  }

  function AppendEach(tags: seq<string>): string {
    if |tags| == 0 then "" else tags[0] + "||" + AppendEach(tags[1..])
  }

  lemma {:induction false} AppendEachLast(tags: seq<string>, t: string)
    ensures AppendEach(tags + [t]) == AppendEach(tags) + t + "||"
  {
    if |tags| > 0 {
      assert (tags + [t])[1..] == tags[1..] + [t];
      AppendEachLast(tags[1..], t);
    } else {
      assert (tags + [t])[1..] == [];
    }
  }

  lemma {:induction false} AppendEachIsJoin(tags: seq<string>)
    requires |tags| > 0
    ensures AppendEach(tags) == Join(tags) + "||"
  {
    if |tags| > 1 {
      AppendEachIsJoin(tags[1..]);
    } else {
      assert tags[1..] == [];
    }
  }

  /** The body of re_subscribe's inner loop; `tags` is the map's keys in iteration order.
      `length() - 2` is unsigned, so an empty text keeps its (empty) whole. */
  method JoinTags(tags: seq<string>) returns (text: string)
    ensures text == Join(tags)
  {
    text := "";
    for i := 0 to |tags|
      invariant text == AppendEach(tags[..i])
    {
      text := text + tags[i] + "||";
      AppendEachLast(tags[..i], tags[i]);
      assert tags[..i + 1] == tags[..i] + [tags[i]];
    }
    assert tags[..|tags|] == tags;
    if |tags| > 0 {
      AppendEachIsJoin(tags);
    }
    text := if |text| >= 2 then text[..|text| - 2] else text;
  }

  /** Join undoes split, for every string whatever. */
  lemma {:induction false} JoinOfSplit(text: string)
    ensures Join(Split(text)) == text
    decreases |text|
  {
    match Find(text)
    case Npos =>
    case At(p) =>
      JoinOfSplit(text[p + 2..]);
      assert Split(text)[1..] == Split(text[p + 2..]);
      assert text == text[..p] + "||" + text[p + 2..];
  }

  /** No tag that comes out of a split contains the separator. */
  lemma {:induction false} SplitTagsHaveNoSeparator(text: string)
    ensures forall t :: t in Split(text) ==> !HasSeparator(t)
    decreases |text|
  {
    match Find(text)
    case Npos =>
    case At(p) =>
      SplitTagsHaveNoSeparator(text[p + 2..]);
      forall i ensures !SeparatorAt(text[..p], i) {
        assert SeparatorAt(text[..p], i) ==> SeparatorAt(text, i);
      }
  }

  /** The tag lists that survive a join and a split. */
  ghost predicate Joinable(tags: seq<string>) {
    && tags != []
    && (forall i :: 0 <= i < |tags| ==> !HasSeparator(tags[i]))
    && (forall i :: 0 <= i < |tags| - 1 ==> !EndsInBar(tags[i]))
  }

  /** In `head || rest` the first separator is the written one exactly when `head` brings none. */
  lemma FirstSeparator(head: string, rest: string)
    ensures Find(head + "||" + rest) == At(|head|) <==> !HasSeparator(head) && !EndsInBar(head)
  {
    var s := head + "||" + rest;
    assert SeparatorAt(s, |head|);
    assert Find(s).At?;
    if HasSeparator(head) {
      var i :| SeparatorAt(head, i);
      assert SeparatorAt(s, i);
    } else if EndsInBar(head) {
      assert SeparatorAt(s, |head| - 1);
    } else {
      forall i | 0 <= i < |head| ensures !SeparatorAt(s, i) {
        assert i < |head| - 1 ==> (SeparatorAt(s, i) <==> SeparatorAt(head, i));
      }
    }
  }

  lemma JoinableTail(tags: seq<string>)
    requires Joinable(tags)
    ensures tags != [] && Find(tags[|tags| - 1]) == Npos
    ensures |tags| > 1 ==> Joinable(tags[1..]) && !HasSeparator(tags[0]) && !EndsInBar(tags[0])
  {
    hide EndsInBar;
  }

  lemma {:induction false} SplitOfJoinHolds(tags: seq<string>)
    requires Joinable(tags)
    ensures Split(Join(tags)) == tags
  {
    hide HasSeparator, EndsInBar, Joinable;
    JoinableTail(tags);
    if |tags| <= 1 {
      assert tags == [tags[0]];
    } else {
      var rest := Join(tags[1..]);
      FirstSeparator(tags[0], rest);
      assert Join(tags)[|tags[0]| + 2..] == rest;
      assert Join(tags)[..|tags[0]|] == tags[0];
      SplitOfJoinHolds(tags[1..]);
      assert tags == [tags[0]] + tags[1..];
    }
  }

  lemma {:induction false} SplitOfJoinNeeds(tags: seq<string>)
    requires Split(Join(tags)) == tags
    ensures Joinable(tags)
  {
    SplitTagsHaveNoSeparator(Join(tags));
    if |tags| <= 1 {
    } else {
      var rest := Join(tags[1..]);
      var s := tags[0] + "||" + rest;
      assert SeparatorAt(s, |tags[0]|);
      var p := Find(s).index;
      assert s[..p] == tags[0];
      FirstSeparator(tags[0], rest);
      assert s[p + 2..] == rest;
      assert tags[1..] == Split(rest);
      SplitOfJoinNeeds(tags[1..]);
      forall i | 0 <= i < |tags| - 1 ensures !EndsInBar(tags[i]) {
        if i > 0 {
          assert tags[i] == tags[1..][i - 1];
        }
      }
    }
  }

  /** Split undoes join exactly for the joinable lists: the list is not empty, no tag contains
      "||", and no tag but the last ends in a single bar. */
  lemma SplitOfJoin(tags: seq<string>)
    ensures Split(Join(tags)) == tags <==> Joinable(tags)
  {
    if Joinable(tags) {
      SplitOfJoinHolds(tags);
    }
    if Split(Join(tags)) == tags {
      SplitOfJoinNeeds(tags);
    }
  }

  // ---------------------------------------------------------------- which tag sets survive a join

  /** An iteration order over the tags of one topic. */
  predicate Iterates(order: seq<string>, tags: set<string>) {
    (set g | g in order) == tags && |order| == |tags|
  }

  lemma {:induction false} AtMostAsMany(order: seq<string>)
    ensures |set g | g in order| <= |order|
  {
    if order == [] {
    } else {
      var n := |order| - 1;
      AtMostAsMany(order[..n]);
      assert (set g | g in order) == (set g | g in order[..n]) + {order[n]};
    }
  }

  /** An iteration order meets everything, and nothing twice. */
  lemma EachOnce(order: seq<string>, tags: set<string>)
    requires Iterates(order, tags)
    ensures forall g :: g in order <==> g in tags
    ensures forall i, j :: 0 <= i < j < |order| ==> order[i] != order[j]
  {
    assert forall g :: g in order <==> g in (set h | h in order);
    forall i, j | 0 <= i < j < |order| ensures order[i] != order[j] {
      if order[i] == order[j] {
        var rest := order[..j] + order[j + 1..];
        assert rest[i] == order[j];
        forall g ensures g in order <==> g in rest {}
        assert (set g | g in rest) == tags;
        AtMostAsMany(rest);
        assert false;
      }
    }
  }

  function TagSet(text: string): set<string> {
    set g | g in Split(text)
  }

  /** Tag sets that come back from a join and a split whatever the order. */
  predicate SafeTags(tags: set<string>) {
    |tags| <= 1 || (forall g :: g in tags ==> !EndsInBar(g)) || tags == {"|", ""}
  }

  /** Some order over a set, ending in a chosen member. */
  lemma {:induction false} OrderEndingIn(tags: set<string>, last: string) returns (order: seq<string>)
    requires last in tags
    ensures Iterates(order, tags) && order != [] && order[|order| - 1] == last
    decreases |tags|
  {
    var rest := tags - {last};
    if rest == {} {
      order := [last];
      assert tags == {last} == (set g | g in order);
    } else {
      var next := SomeMember(rest);
      var front := OrderEndingIn(rest, next);
      order := front + [last];
      assert (set g | g in order) == (set g | g in front) + {last};
      assert tags == rest + {last};
    }
  }

  /** What a split gives ends in a bar at most at its last place. */
  lemma SplitIsJoinable(text: string)
    ensures Joinable(Split(text))
  {
    JoinOfSplit(text);
    SplitOfJoinNeeds(Split(text));
  }

  lemma {:induction false} JoinEnd(tags: seq<string>)
    requires tags != []
    ensures tags[|tags| - 1] != "" ==> Join(tags) != "" && EndsInBar(Join(tags)) == EndsInBar(tags[|tags| - 1])
    ensures |tags| > 1 ==> tags[0] + "||" <= Join(tags)
  {
    if |tags| == 1 {
    } else {
      JoinEnd(tags[1..]);
    }
  }

  /** A tag that ends in a bar can only come out last, and then the joined text ends in that bar. */
  lemma BarComesLast(text: string, g: string)
    requires g in Split(text) && EndsInBar(g)
    ensures EndsInBar(text) && g == Split(text)[|Split(text)| - 1]
  {
    hide Split, Join;
    SplitIsJoinable(text);
    JoinOfSplit(text);
    JoinEnd(Split(text));
    var i :| 0 <= i < |Split(text)| && Split(text)[i] == g;
  }

  lemma SafeSurvives(tags: set<string>, order: seq<string>)
    requires SafeTags(tags) && tags != {} && Iterates(order, tags)
    requires forall g :: g in tags ==> !HasSeparator(g)
    ensures TagSet(Join(order)) == tags
  {
    forall i | 0 <= i < |order| ensures order[i] in tags {
      assert order[i] in (set g | g in order);
    }
    if tags == {"|", ""} {
      BarAndEmpty();
      TwoOrders(order);
    } else {
      assert Joinable(order);
      SplitOfJoinHolds(order);
    }
  }

  lemma TwoOrders(order: seq<string>)
    requires Iterates(order, {"|", ""})
    ensures order == ["|", ""] || order == ["", "|"]
  {
    assert |{"|", ""}| == 2;
    assert order[0] in (set g | g in order) && order[1] in (set g | g in order);
    assert "|" in order && "" in order;
  }

  /** The one harmless set with a bar: both orders join to the same three bars. */
  lemma BarAndEmpty()
    ensures Join(["|", ""]) == Join(["", "|"]) == "|||"
    ensures TagSet("|||") == {"|", ""}
  {
    assert Join([""]) == "" && ["|", ""][1..] == [""];
    assert Join(["|"]) == "|" && ["", "|"][1..] == ["|"];
    assert Joinable(["", "|"]);
    SplitOfJoinHolds(["", "|"]);
    assert Split("|||") == ["", "|"];
  }

  /** An order that ends in a tag other than the one with the bar, and not in the empty one if that
      can be helped. */
  lemma UnsafeOrder(tags: set<string>) returns (order: seq<string>)
    requires !SafeTags(tags) && forall g :: g in tags ==> !HasSeparator(g)
    ensures Iterates(order, tags) && TagSet(Join(order)) != tags
  {
    var g :| g in tags && EndsInBar(g);
    if t :| t in tags && t != g && t != "" {
      order := OrderEndingIn(tags, t);
      JoinEnd(order);
      if TagSet(Join(order)) == tags {
        assert g in TagSet(Join(order)) && t in TagSet(Join(order));
        BarComesLast(Join(order), g);
        BarComesLast(Join(order), t);
      }
    } else {
      order := OnlyBarAndEmpty(tags, g);
    }
  }

  lemma OnlyBarAndEmpty(tags: set<string>, g: string) returns (order: seq<string>)
    requires !SafeTags(tags) && g in tags && EndsInBar(g) && !HasSeparator(g)
    requires forall t :: t in tags && t != g ==> t == ""
    ensures Iterates(order, tags) && TagSet(Join(order)) != tags
  {
    assert "" !in tags ==> tags == {g};
    assert tags == {g, ""};
    order := [g, ""];
    assert (set t | t in order) == tags;
    assert Join(order) == g + "||" by {
      assert order[1..] == [""];
    }
    if TagSet(Join(order)) == tags {
      BarFirst(g);
    }
  }

  /** `g` and a separator cannot be read as `g` behind empty tags, unless g is the single bar. */
  lemma BarFirst(g: string)
    requires EndsInBar(g) && !HasSeparator(g) && TagSet(g + "||") == {g, ""}
    ensures g == "|"
  {
    hide Split, Join;
    var text := g + "||";
    var parts := Split(text);
    JoinOfSplit(text);
    assert g in TagSet(text);
    BarComesLast(text, g);
    SplitIsJoinable(text);
    JoinEnd(parts);
    if |parts| == 1 {
      SingleJoin(g);
    } else {
      assert parts[0] in TagSet(text) && !EndsInBar(parts[0]);
      assert parts[0] == g || parts[0] == "";
      assert "||" <= text;
      TwoBarsFirst(g);
    }
  }

  lemma TwoBarsFirst(g: string)
    requires "||" <= g + "||"
    ensures |g| <= 1 || HasSeparator(g)
  {
    if |g| > 1 {
      var text := g + "||";
      assert text[0] == "||"[0] && text[1] == "||"[1];
      assert SeparatorAt(g, 0);
    }
  }

  lemma SingleJoin(g: string)
    ensures Join([g]) == g
  {
  }

  /** re_subscribe brings back exactly a topic's tags, whatever order the map walks them in, exactly
      when there is at most one tag, or none ends in a bar, or they are the bar and the empty tag. */
  lemma SurvivesEveryOrder(tags: set<string>)
    requires tags != {} && forall g :: g in tags ==> !HasSeparator(g)
    ensures (forall order :: Iterates(order, tags) ==> TagSet(Join(order)) == tags) <==> SafeTags(tags)
  {
    if SafeTags(tags) {
      forall order | Iterates(order, tags) ensures TagSet(Join(order)) == tags {
        SafeSurvives(tags, order);
      }
    } else {
      var order := UnsafeOrder(tags);
    }
  }

  /** A reconnect that joins the tags "a|" and "b" subscribes to "a" and "|b" instead. */
  lemma TrailingBarChangesTags()
    ensures Join(["a|", "b"]) == "a|||b"
    ensures Split("a|||b") == ["a", "|b"]
  {
    assert Join(["b"]) == "b";
    assert ["a|", "b"][1..] == ["b"];
    var s := "a|||b";
    assert SeparatorAt(s, 1);
    assert Find(s) == At(1);
    assert s[..1] == "a" && s[3..] == "|b";
    forall i ensures !SeparatorAt("|b", i) {}
    assert Split("|b") == ["|b"];
  }

  /** Client key set and server tag set of one tag string agree: with an injective hash the
      server's hashed list contains a tag's hash exactly when the client's list contains the tag. */
  lemma KeySetsAgree(hash: string -> int, text: string, tag: string)
    requires forall a: string, b: string :: hash(a) == hash(b) ==> a == b
    ensures tag in Split(text) <==> hash(tag) in Hashes(hash, Split(text))
  {
    var r := Split(text);
    var h := Hashes(hash, r);
    if tag in r {
      var i :| 0 <= i < |r| && r[i] == tag;
      assert h[i] == hash(tag);
    }
    if hash(tag) in h {
      var i :| 0 <= i < |h| && h[i] == hash(tag);
      assert r[i] == tag;
    }
  }
}
