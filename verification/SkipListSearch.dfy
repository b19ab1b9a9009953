/** The levels of the skip list, and searches that run while another thread inserts. */
module SkipListSearches {
  import opened ByteOrder
  import opened DbFormat
  import opened SkipLists

  // ----- The levels -----

  /** The nodes met by following the links of one level from `x` on, for at most `n` nodes. */
  ghost function Follow(arena: seq<Node>, x: Option<nat>, level: nat, n: nat): seq<nat>
    decreases n
  {
    if n == 0 || x.None? || x.value >= |arena| || level >= |arena[x.value].next| then []
    else [x.value] + Follow(arena, arena[x.value].next[level], level, n - 1)
  }

  /** What the links of a level lead to from the head. */
  ghost function LevelNodes(s: Shape, level: nat): seq<nat> {
    Follow(s.arena, Some(0), level, |s.arena|)
  }

  ghost predicate InKeyOrder(arena: seq<Node>, nodes: seq<nat>) {
    && (forall i :: 0 <= i < |nodes| ==> nodes[i] < |arena|)
    && forall i, j :: 1 <= i < j < |nodes| ==> KeyLt(arena[nodes[i]].key, arena[nodes[j]].key)
  }

  /** The places from `p` on whose nodes are linked on `level`. */
  ghost function PlacesFrom(s: Shape, p: nat, level: nat): (r: seq<nat>)
    requires Indexed(s) && p <= |s.list|
    decreases |s.list| - p
  {
    if p == |s.list| then []
    else if LinkedAt(s, p) > level then [p] + PlacesFrom(s, p + 1, level)
    else PlacesFrom(s, p + 1, level)
  }

  lemma {:induction false} PlacesFromAscend(s: Shape, p: nat, level: nat)
    requires Indexed(s) && p <= |s.list|
    ensures var r := PlacesFrom(s, p, level);
            && (forall i :: 0 <= i < |r| ==> p <= r[i] < |s.list|)
            && (forall i, j :: 0 <= i < j < |r| ==> r[i] < r[j])
            && (forall q :: q in r <==> p <= q < |s.list| && LinkedAt(s, q) > level)
            && |r| <= |s.list| - p
    decreases |s.list| - p
  {
    hide KeyLt;
    if p < |s.list| {
      PlacesFromAscend(s, p + 1, level);
      var rest := PlacesFrom(s, p + 1, level);
      assert forall i :: 0 <= i < |rest| ==> rest[i] in rest;
    }
  }

  lemma {:induction false} PlacesFromFirst(s: Shape, p: nat, level: nat)
    requires Indexed(s) && p <= |s.list|
    ensures PlacesFrom(s, p, level) == PlacesFrom(s, First(s, p, level), level)
    decreases |s.list| - p
  {
    if p < |s.list| && LinkedAt(s, p) <= level {
      PlacesFromFirst(s, p + 1, level);
    }
  }

  ghost predicate NodesAt(s: Shape, nodes: seq<nat>, places: seq<nat>) {
    |nodes| == |places| && forall i :: 0 <= i < |places| ==> places[i] < |s.list| && nodes[i] == s.list[places[i]]
  }

  /** Following the links visits the places that are linked, in order. */
  lemma {:induction false} FollowVisits(s: Shape, p: nat, level: nat, n: nat)
    requires Inv(s) && p < |s.list| && LinkedAt(s, p) > level && n >= |PlacesFrom(s, p, level)|
    ensures NodesAt(s, Follow(s.arena, Some(s.list[p]), level, n), PlacesFrom(s, p, level))
    decreases |s.list| - p
  {
    hide KeyLt;
    assert LinkOk(s, p, level);
    var q := First(s, p + 1, level);
    PlacesFromFirst(s, p + 1, level);
    if q < |s.list| {
      FollowVisits(s, q, level, n - 1);
    }
  }

  /** The list has no more nodes than the arena. */
  lemma {:induction false} ListFits(s: Shape)
    requires InOrder(s)
    ensures |s.list| <= |s.arena|
  {
    var nodes := set p | 0 <= p < |s.list| :: s.list[p];
    SetOfPrefix(s, |s.list|);
    BoundedSet(nodes, |s.arena|);
  }

  lemma {:induction false} SetOfPrefix(s: Shape, n: nat)
    requires InOrder(s) && n <= |s.list|
    ensures |set p | 0 <= p < n :: s.list[p]| == n
  {
    hide KeyLt;
    var nodes := set p | 0 <= p < n :: s.list[p];
    if n > 0 {
      SetOfPrefix(s, n - 1);
      var before := set p | 0 <= p < n - 1 :: s.list[p];
      forall p | 0 <= p < n - 1
        ensures s.list[p] != s.list[n - 1]
      {
        PlacesInOrder(s, p, n - 1);
      }
      assert nodes == before + {s.list[n - 1]};
    } else {
      assert nodes == {};
    }
  }

  lemma {:induction false} BoundedSet(xs: set<nat>, n: nat)
    requires forall x :: x in xs ==> x < n
    ensures |xs| <= n
  {
    if n > 0 {
      BoundedSet(xs - {n - 1}, n - 1);
    } else {
      assert xs == {};
    }
  }

  /** Each level is sorted and complete, and the nodes of the level above are among its nodes. */
  lemma {:induction false} LevelsAreSortedSublists(s: Shape, level: nat)
    requires Inv(s) && level < MAX_HEIGHT
    ensures InKeyOrder(s.arena, LevelNodes(s, level))
    ensures forall x :: x in LevelNodes(s, level) <==> exists p :: 0 <= p < |s.list| && s.list[p] == x && LinkedAt(s, p) > level
    ensures forall x :: x in LevelNodes(s, level + 1) ==> x in LevelNodes(s, level)
  {
    LevelIs(s, level);
    if level + 1 < MAX_HEIGHT {
      LevelIs(s, level + 1);
    } else {
      NothingSoHigh(s, level + 1);
    }
  }

  lemma {:induction false} NothingSoHigh(s: Shape, level: nat)
    requires Inv(s) && level >= MAX_HEIGHT
    ensures LevelNodes(s, level) == []
  {
    hide KeyLt;
    assert s.list[0] < |s.arena|;
  }

  lemma {:induction false} LevelIs(s: Shape, level: nat)
    requires Inv(s) && level < MAX_HEIGHT
    ensures InKeyOrder(s.arena, LevelNodes(s, level))
    ensures forall x :: x in LevelNodes(s, level) <==> exists p :: 0 <= p < |s.list| && s.list[p] == x && LinkedAt(s, p) > level
  {
    hide KeyLt, Follow, PlacesFrom;
    PlacesFromAscend(s, 0, level);
    ListFits(s);
    FollowVisits(s, 0, level, |s.arena|);
    var nodes, places := LevelNodes(s, level), PlacesFrom(s, 0, level);
    forall i, j | 1 <= i < j < |nodes|
      ensures KeyLt(s.arena[nodes[i]].key, s.arena[nodes[j]].key)
    {
      assert places[0] < places[i] < places[j];
      assert KeyLt(KeyAt(s, places[i]), KeyAt(s, places[j]));
    }
    forall x
      ensures x in nodes <==> exists p :: 0 <= p < |s.list| && s.list[p] == x && LinkedAt(s, p) > level
    {
      if x in nodes {
        var i :| 0 <= i < |nodes| && nodes[i] == x;
        assert places[i] in places;
      }
      if p :| 0 <= p < |s.list| && s.list[p] == x && LinkedAt(s, p) > level {
        assert p in places;
        var i :| 0 <= i < |places| && places[i] == p;
        assert nodes[i] == x;
      }
    }
  }

  // ----- Interleavings -----

  /** A store of the inserting thread, or one read of a link by the searching thread. */
  datatype Event =
    | Allocate(node: Node, c: nat)
    | SetOwnLink(x: nat, level: nat, next: Option<nat>)
    | Publish(pp: nat, px: nat, level: nat)
    | ReadLink

  datatype Search = Searching(x: nat, level: nat) | Done(next: Option<nat>)

  datatype World = World(shape: Shape, search: Search)

  /** The nodes are in the order of their keys, which says what a place is; nothing is asked of the links. */
  ghost predicate Enabled(w: World, e: Event) {
    InOrder(w.shape) &&
    match e
    case Allocate(node, c) => Fits(w.shape, node, c)
    case SetOwnLink(x, level, next) => x < |w.shape.arena| && w.shape.linked[x] <= level < |w.shape.arena[x].next|
    case Publish(pp, px, level) => Publishable(w.shape, pp, px, level)
    case ReadLink => w.search.Searching? && w.search.x < |w.shape.arena| && w.search.level < |w.shape.arena[w.search.x].next|
  }

  /** One turn of the loop in FindGreaterOrEqual. */
  ghost function AfterRead(arena: seq<Node>, x: nat, level: nat, target: InternalKey): Search
    requires x < |arena| && level < |arena[x].next|
  {
    var next := arena[x].next[level];
    if next.Some? && next.value < |arena| && KeyLt(arena[next.value].key, target) then Searching(next.value, level)
    else if level == 0 then Done(next)
    else Searching(x, level - 1)
  }

  ghost function Do(w: World, e: Event, target: InternalKey): World
    requires Enabled(w, e)
  {
    match e
    case Allocate(node, c) => w.(shape := WithNode(w.shape, node, c))
    case SetOwnLink(x, level, next) => w.(shape := OwnLinked(w.shape, x, level, next))
    case Publish(pp, px, level) => w.(shape := Published(w.shape, pp, px, level))
    case ReadLink => w.(search := AfterRead(w.shape.arena, w.search.x, w.search.level, target))
  }

  /** A search that starts at the head on level `top` and goes on while the list is being changed. */
  ghost predicate IsInterleaving(worlds: seq<World>, events: seq<Event>, target: InternalKey, top: nat) {
    && |worlds| == |events| + 1 && top < MAX_HEIGHT
    && Inv(worlds[0].shape) && worlds[0].search == Searching(0, top)
    && forall i :: 0 <= i < |events| ==> Enabled(worlds[i], events[i]) && worlds[i + 1] == Do(worlds[i], events[i], target)
  }

  /** The search stands at place `p` of the list, which lies before the target. */
  ghost predicate SearchAt(w: World, p: nat, target: InternalKey) {
    && Inv(w.shape)
    && (w.search.Searching? ==>
          && w.search.x < |w.shape.arena| && w.search.level < w.shape.linked[w.search.x]
          && StandsAt(w.shape, p, w.search.x, target))
  }

  /** Reads still to come, as long as nobody inserts. */
  ghost function Remaining(w: World, p: nat): int {
    if w.search.Done? then 0 else |w.shape.list| - p + w.search.level
  }

  lemma {:induction false} StoreKeepsSearch(w: World, e: Event, target: InternalKey, p: nat) returns (q: nat)
    requires SearchAt(w, p, target) && Enabled(w, e) && !e.ReadLink?
    ensures SearchAt(Do(w, e, target), q, target)
    ensures Remaining(Do(w, e, target), q) <= Remaining(w, p) + if e.Allocate? then 1 else 0
  {
    hide KeyLt, Inv, Fits, First, SearchAt, WithNode, OwnLinked, Published, Publishable;
    q := p;
    SearchHasInv(w, p, target);
    InOrderOf(w.shape);
    match e
    case Allocate(node, c) => q := AllocationKeepsSearch(w, node, c, target, p);
    case SetOwnLink(x, level, next) => OwnLinkKeepsSearch(w, x, level, next, target, p);
    case Publish(pp, px, level) => PublishKeepsSearch(w, pp, px, level, target, p);
  }

  lemma {:induction false} AllocationKeepsSearch(w: World, node: Node, c: nat, target: InternalKey, p: nat) returns (q: nat)
    requires SearchAt(w, p, target) && Inv(w.shape) && Fits(w.shape, node, c)
    ensures c <= |w.shape.list|
    ensures var after := w.(shape := WithNode(w.shape, node, c));
            SearchAt(after, q, target) && Remaining(after, q) <= Remaining(w, p) + 1
  {
    hide KeyLt, Inv, Fits, First;
    q := p;
    InOrderOf(w.shape);
    FitsPlace(w.shape, node, c);
    WithNodeKeepsInv(w.shape, node, c);
    InOrderOf(WithNode(w.shape, node, c));
    if w.search.Searching? {
      WithNodeAt(w.shape, node, c, p);
      q := Moved(p, c);
    }
  }

  lemma {:induction false} OwnLinkKeepsSearch(w: World, x: nat, level: nat, next: Option<nat>, target: InternalKey, p: nat)
    requires SearchAt(w, p, target) && x < |w.shape.arena| && |w.shape.linked| == |w.shape.arena|
    requires w.shape.linked[x] <= level < |w.shape.arena[x].next|
    ensures var after := w.(shape := OwnLinked(w.shape, x, level, next));
            SearchAt(after, p, target) && Remaining(after, p) == Remaining(w, p)
  {
    hide KeyLt, Inv, First;
    OwnLinkKeepsInv(w.shape, x, level, next);
    InOrderOf(w.shape);
    OwnLinkedInOrder(w.shape, x, level, next);
  }

  lemma {:induction false} PublishKeepsSearch(w: World, pp: nat, px: nat, level: nat, target: InternalKey, p: nat)
    requires SearchAt(w, p, target) && Inv(w.shape) && Publishable(w.shape, pp, px, level)
    ensures var after := w.(shape := Published(w.shape, pp, px, level));
            SearchAt(after, p, target) && Remaining(after, p) == Remaining(w, p)
  {
    hide KeyLt, Inv, First;
    InOrderOf(w.shape);
    PublishKeepsInv(w.shape, pp, px, level);
    PublishedInOrder(w.shape, pp, px, level);
  }

  lemma {:induction false} SearchHasInv(w: World, p: nat, target: InternalKey)
    requires SearchAt(w, p, target)
    ensures Inv(w.shape)
  {
  }

  lemma {:induction false} InOrderOf(s: Shape)
    requires Inv(s)
    ensures InOrder(s) && |s.linked| == |s.arena|
  {
  }

  lemma {:induction false} FitsPlace(s: Shape, node: Node, c: nat)
    requires InOrder(s) && Fits(s, node, c)
    ensures 1 <= c <= |s.list|
  {
  }

  lemma {:induction false} ReadKeepsSearch(w: World, target: InternalKey, p: nat) returns (q: nat)
    requires SearchAt(w, p, target) && Enabled(w, ReadLink)
    ensures SearchAt(Do(w, ReadLink, target), q, target)
    ensures Remaining(Do(w, ReadLink, target), q) < Remaining(w, p)
    ensures var after := Do(w, ReadLink, target).search;
            after.Done? ==> IsCeiling(Keys(w.shape), target, KeyOf(w.shape, after.next))
  {
    var s, x, level := w.shape, w.search.x, w.search.level;
    LinkRead(s, p, x, level, target);
    var next := s.arena[x].next[level];
    q := p;
    if next.Some? && KeyLt(s.arena[next.value].key, target) {
      q := First(s, p + 1, level);
    } else if level == 0 {
      SearchEnds(s, p, x, target);
    }
  }

  ghost function Reads(events: seq<Event>, n: nat): nat
    requires n <= |events|
  {
    if n == 0 then 0 else Reads(events, n - 1) + if events[n - 1].ReadLink? then 1 else 0
  }

  ghost function Inserted(events: seq<Event>, n: nat): nat
    requires n <= |events|
  {
    if n == 0 then 0 else Inserted(events, n - 1) + if events[n - 1].Allocate? then 1 else 0
  }

  lemma {:induction false} SearchGoesOn(worlds: seq<World>, events: seq<Event>, target: InternalKey, top: nat, i: nat) returns (p: nat)
    requires IsInterleaving(worlds, events, target, top) && i <= |events|
    ensures SearchAt(worlds[i], p, target)
    ensures Remaining(worlds[i], p) + Reads(events, i) <= |worlds[0].shape.list| + top + Inserted(events, i)
  {
    hide Inv, Enabled, Do;
    if i == 0 {
      p := 0;
      HeadIsStart(worlds[0], target, top);
    } else {
      var q := SearchGoesOn(worlds, events, target, top, i - 1);
      assert Enabled(worlds[i - 1], events[i - 1]);
      if events[i - 1].ReadLink? {
        p := ReadKeepsSearch(worlds[i - 1], target, q);
      } else {
        p := StoreKeepsSearch(worlds[i - 1], events[i - 1], target, q);
      }
    }
  }

  lemma {:induction false} HeadIsStart(w: World, target: InternalKey, top: nat)
    requires Inv(w.shape) && w.search == Searching(0, top) && top < MAX_HEIGHT
    ensures SearchAt(w, 0, target)
  {
  }

  /**
   * However a search and insertions are interleaved: the list is in order after every single store, and the search ends
   * with the least key from the target on that is in the list at the moment of its last read.
   */
  lemma {:induction false} InterleavedSearchIsRight(worlds: seq<World>, events: seq<Event>, target: InternalKey, top: nat, i: nat)
    requires IsInterleaving(worlds, events, target, top) && i < |events|
    ensures Inv(worlds[i].shape) && Inv(worlds[i + 1].shape)
    ensures events[i].ReadLink? && worlds[i + 1].search.Done? ==>
              IsCeiling(Keys(worlds[i].shape), target, KeyOf(worlds[i].shape, worlds[i + 1].search.next))
  {
    hide Inv, Enabled, Do, Keys, IsCeiling;
    var p := SearchGoesOn(worlds, events, target, top, i);
    var after := SearchGoesOn(worlds, events, target, top, i + 1);
    assert Enabled(worlds[i], events[i]) && worlds[i + 1] == Do(worlds[i], events[i], target);
    if events[i].ReadLink? {
      var q := ReadKeepsSearch(worlds[i], target, p);
    }
  }

  /** It ends: it reads no more links than there are nodes and levels, counting the nodes that come in meanwhile. */
  lemma {:induction false} InterleavedSearchEnds(worlds: seq<World>, events: seq<Event>, target: InternalKey, top: nat)
    requires IsInterleaving(worlds, events, target, top)
    ensures Reads(events, |events|) <= |worlds[0].shape.list| + top + Inserted(events, |events|)
  {
    hide Inv, Enabled, Do;
    var p := SearchGoesOn(worlds, events, target, top, |events|);
    StandsInside(worlds[|events|], p, target);
  }

  lemma {:induction false} StandsInside(w: World, p: nat, target: InternalKey)
    requires SearchAt(w, p, target)
    ensures Remaining(w, p) >= 0
  {
  }
}
