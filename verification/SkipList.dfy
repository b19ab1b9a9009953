/**
 * The skip list. Nodes live in an arena and are never moved or freed, so a pointer is an index into it.
 * A node becomes visible to readers one link at a time; the invariant holds after every single store.
 */
module SkipLists {
  import opened ByteOrder
  import opened DbFormat

  const MAX_HEIGHT := 12

  /** `next[i]` is the link of level i; there are as many links as the node is high. */
  datatype Node = Node(key: InternalKey, next: seq<Option<nat>>)

  /**
   * What is in memory, and for the proof: `list`, the nodes in the order of their keys behind the head, and
   * `linked`, on how many of its levels each node can be reached so far.
   */
  datatype Shape = Shape(arena: seq<Node>, list: seq<nat>, linked: seq<nat>)

  // ----- The invariant -----

  ghost predicate Indexed(s: Shape) {
    && |s.linked| == |s.arena|
    && |s.list| > 0
    && forall p :: 0 <= p < |s.list| ==> s.list[p] < |s.arena|
  }

  ghost function KeyAt(s: Shape, p: nat): InternalKey
    requires Indexed(s) && p < |s.list|
  {
    s.arena[s.list[p]].key
  }

  ghost function LinkedAt(s: Shape, p: nat): nat
    requires Indexed(s) && p < |s.list|
  {
    s.linked[s.list[p]]
  }

  /** The first place from `p` on whose node is linked on `level`. */
  ghost function First(s: Shape, p: nat, level: nat): (q: nat)
    requires Indexed(s) && p <= |s.list|
    ensures p <= q <= |s.list|
    ensures q < |s.list| ==> LinkedAt(s, q) > level
    ensures forall r :: p <= r < q ==> LinkedAt(s, r) <= level
    decreases |s.list| - p
  {
    if p == |s.list| || LinkedAt(s, p) > level then p else First(s, p + 1, level)
  }

  ghost function PointerTo(list: seq<nat>, q: nat): Option<nat> {
    if q < |list| then Some(list[q]) else None
  }

  ghost predicate InOrder(s: Shape) {
    && Indexed(s)
    && s.list[0] == 0 && s.linked[0] == MAX_HEIGHT
    && (forall p :: 1 <= p < |s.list| ==> s.list[p] != 0)
    && (forall p, q :: 1 <= p < q < |s.list| ==> KeyLt(KeyAt(s, p), KeyAt(s, q)))
    && (forall n :: 0 <= n < |s.arena| ==> s.linked[n] <= |s.arena[n].next| <= MAX_HEIGHT)
  }

  ghost predicate LinkOk(s: Shape, p: nat, level: nat)
    requires InOrder(s) && p < |s.list|
  {
    LinkedAt(s, p) > level ==> s.arena[s.list[p]].next[level] == PointerTo(s.list, First(s, p + 1, level))
  }

  /** On every level a node links to the next node that is linked on that level. */
  ghost predicate Inv(s: Shape) {
    InOrder(s) && forall p: nat, level: nat :: p < |s.list| ==> LinkOk(s, p, level)
  }

  lemma PlacesInOrder(s: Shape, p: nat, q: nat)
    requires InOrder(s) && p < |s.list| && q < |s.list|
    ensures 1 <= p && 1 <= q ==> (KeyLt(KeyAt(s, p), KeyAt(s, q)) <==> p < q)
    ensures s.list[p] == s.list[q] <==> p == q
  {
    if 1 <= p < q { assert KeyLt(KeyAt(s, p), KeyAt(s, q)); }
    if 1 <= q < p { assert KeyLt(KeyAt(s, q), KeyAt(s, p)); }
  }

  // ----- The set that the list stands for -----

  ghost function Keys(s: Shape): set<InternalKey>
    requires Indexed(s)
  {
    set p | 1 <= p < |s.list| && LinkedAt(s, p) > 0 :: KeyAt(s, p)
  }

  ghost function KeyOf(s: Shape, x: Option<nat>): Option<InternalKey> {
    if x.Some? && x.value < |s.arena| then Some(s.arena[x.value].key) else None
  }

  /** The least of `keys` that is not below `target`. */
  ghost predicate IsCeiling(keys: set<InternalKey>, target: InternalKey, r: Option<InternalKey>) {
    if r.None? then forall k :: k in keys ==> KeyLt(k, target)
    else
      && r.value in keys && !KeyLt(r.value, target)
      && forall k :: k in keys && KeyLt(k, r.value) ==> KeyLt(k, target)
  }

  /** The greatest of `keys` that is below `target`. */
  ghost predicate IsBelow(keys: set<InternalKey>, target: InternalKey, r: Option<InternalKey>) {
    if r.None? then forall k :: k in keys ==> !KeyLt(k, target)
    else
      && r.value in keys && KeyLt(r.value, target)
      && forall k :: k in keys && KeyLt(r.value, k) ==> !KeyLt(k, target)
  }

  ghost predicate IsGreatest(keys: set<InternalKey>, r: Option<InternalKey>) {
    if r.None? then keys == {}
    else r.value in keys && forall k :: k in keys ==> !KeyLt(r.value, k)
  }

  /** The least of `keys` above `key`. */
  ghost predicate IsAbove(keys: set<InternalKey>, key: InternalKey, r: Option<InternalKey>) {
    if r.None? then forall k :: k in keys ==> !KeyLt(key, k)
    else
      && r.value in keys && KeyLt(key, r.value)
      && forall k :: k in keys && KeyLt(key, k) ==> !KeyLt(k, r.value)
  }

  /** Nothing visible lies strictly between the places `p` and `q`. */
  lemma BetweenPlaces(s: Shape, p: nat, k: InternalKey) returns (at: nat)
    requires InOrder(s) && p < |s.list| && k in Keys(s)
    ensures 1 <= at < |s.list| && KeyAt(s, at) == k && LinkedAt(s, at) > 0
    ensures at <= p || First(s, p + 1, 0) <= at
  {
    at :| 1 <= at < |s.list| && LinkedAt(s, at) > 0 && KeyAt(s, at) == k;
  }

  /** Node `x` is visible. */
  ghost predicate OnPlace(s: Shape, x: nat) {
    InOrder(s) && x < |s.arena| && exists p: nat :: 1 <= p < |s.list| && s.list[p] == x && LinkedAt(s, p) > 0
  }

  // ----- A search on its way -----

  /** A search for `target` may stand at node `x`, which is at place `p`. */
  ghost predicate StandsAt(s: Shape, p: nat, x: nat, target: InternalKey)
    requires InOrder(s)
  {
    p < |s.list| && s.list[p] == x && (p == 0 || KeyLt(KeyAt(s, p), target))
  }

  /** What reading the link of `x` on `level` tells a search. */
  lemma LinkRead(s: Shape, p: nat, x: nat, level: nat, target: InternalKey)
    requires Inv(s) && x < |s.arena| && level < s.linked[x] && StandsAt(s, p, x, target)
    ensures level < |s.arena[x].next|
    ensures var next := s.arena[x].next[level];
            var q := First(s, p + 1, level);
            next == PointerTo(s.list, q) &&
            (next.Some? ==> next.value < |s.arena| && level < s.linked[next.value] && s.list[q] == next.value)
  {
    assert LinkOk(s, p, level);
  }

  /** At level 0 the search ends with the least visible key from `target` on. */
  lemma SearchEnds(s: Shape, p: nat, x: nat, target: InternalKey)
    requires Inv(s) && x < |s.arena| && 0 < s.linked[x] && StandsAt(s, p, x, target)
    requires var next := s.arena[x].next[0]; next.Some? ==> next.value < |s.arena| && !KeyLt(s.arena[next.value].key, target)
    ensures IsCeiling(Keys(s), target, KeyOf(s, s.arena[x].next[0]))
    ensures IsBelow(Keys(s), target, if p == 0 then None else Some(s.arena[x].key))
  {
    LinkRead(s, p, x, 0, target);
    var q := First(s, p + 1, 0);
    forall k | k in Keys(s)
      ensures KeyLt(k, target) ==> p > 0 && !KeyLt(KeyAt(s, p), k)
      ensures !KeyLt(k, target) ==> q < |s.list| && !KeyLt(k, KeyAt(s, q))
      ensures q < |s.list| && KeyLt(k, KeyAt(s, q)) ==> KeyLt(k, target)
      ensures p > 0 && KeyLt(KeyAt(s, p), k) ==> !KeyLt(k, target)
    {
      var at := BetweenPlaces(s, p, k);
      PlacesInOrder(s, at, p);
      if q < |s.list| { PlacesInOrder(s, at, q); }
    }
  }

  // ----- A new node, not yet linked -----

  function SetLink(arena: seq<Node>, x: nat, level: nat, next: Option<nat>): seq<Node>
    requires x < |arena| && level < |arena[x].next|
  {
    arena[x := arena[x].(next := arena[x].next[level := next])]
  }

  /** A node at place `c` that no link leads to. */
  ghost function WithNode(s: Shape, node: Node, c: nat): Shape
    requires c <= |s.list|
  {
    Shape(s.arena + [node], s.list[..c] + [|s.arena|] + s.list[c..], s.linked + [0])
  }

  /** Where the node of place `q` is after a node was put in at place `c`. */
  ghost function Moved(q: nat, c: nat): nat {
    if q < c then q else q + 1
  }

  lemma FirstIs(s: Shape, p: nat, level: nat, q: nat)
    requires Indexed(s) && p <= q <= |s.list|
    requires q < |s.list| ==> LinkedAt(s, q) > level
    requires forall r :: p <= r < q ==> LinkedAt(s, r) <= level
    ensures First(s, p, level) == q
  {
  }

  lemma WithNodeAt(s: Shape, node: Node, c: nat, q: nat)
    requires Indexed(s) && c <= |s.list| && q < |s.list|
    ensures var t := WithNode(s, node, c);
            && Indexed(t) && t.list[Moved(q, c)] == s.list[q]
            && LinkedAt(t, Moved(q, c)) == LinkedAt(s, q) && KeyAt(t, Moved(q, c)) == KeyAt(s, q)
            && t.list[c] == |s.arena| && LinkedAt(t, c) == 0
  {
    WithNodeIndexed(s, node, c);
  }

  lemma WithNodeIndexed(s: Shape, node: Node, c: nat)
    requires Indexed(s) && c <= |s.list|
    ensures Indexed(WithNode(s, node, c))
  {
  }

  lemma FirstMoves(s: Shape, node: Node, c: nat, p: nat, level: nat)
    requires Indexed(s) && c <= |s.list| && p <= |s.list|
    ensures Indexed(WithNode(s, node, c))
    ensures p <= c ==> First(WithNode(s, node, c), p, level) == Moved(First(s, p, level), c)
    ensures p >= c ==> First(WithNode(s, node, c), p + 1, level) == Moved(First(s, p, level), c)
  {
    var t := WithNode(s, node, c);
    var q := First(s, p, level);
    forall r | (p <= r || (p > c && p + 1 <= r)) && r < Moved(q, c)
      ensures Indexed(t) && (p <= c || p + 1 <= r ==> LinkedAt(t, r) <= level)
    {
      if r == c { WithNodeAt(s, node, c, 0); } else { WithNodeAt(s, node, c, if r < c then r else r - 1); }
    }
    WithNodeIndexed(s, node, c);
    if q < |s.list| { WithNodeAt(s, node, c, q); }
    if p <= c { FirstIs(t, p, level, Moved(q, c)); }
    if p >= c { FirstIs(t, p + 1, level, Moved(q, c)); }
  }

  /** `node` fits in at place `c`. */
  ghost predicate Fits(s: Shape, node: Node, c: nat)
    requires InOrder(s)
  {
    && 1 <= c <= |s.list| && |node.next| <= MAX_HEIGHT
    && (forall p :: 1 <= p < c ==> KeyLt(KeyAt(s, p), node.key))
    && forall p :: c <= p < |s.list| ==> KeyLt(node.key, KeyAt(s, p))
  }

  lemma WithNodeInOrder(s: Shape, node: Node, c: nat)
    requires InOrder(s) && Fits(s, node, c)
    ensures InOrder(WithNode(s, node, c))
  {
    var t := WithNode(s, node, c);
    WithNodeIndexed(s, node, c);
    forall q | 0 <= q < |t.list|
      ensures KeyAt(t, q) == if q < c then KeyAt(s, q) else if q == c then node.key else KeyAt(s, q - 1)
      ensures q > 0 ==> t.list[q] != 0
    {
      if q != c { WithNodeAt(s, node, c, if q < c then q else q - 1); }
    }
    forall p, q | 1 <= p < q < |t.list|
      ensures KeyLt(KeyAt(t, p), KeyAt(t, q))
    {
      var p', q' := if p < c then p else p - 1, if q < c then q else q - 1;
      if p == c {
        assert KeyLt(node.key, KeyAt(s, q'));
      } else if q == c {
        assert KeyLt(KeyAt(s, p'), node.key);
      } else {
        PlacesInOrder(s, p', q');
      }
    }
  }

  lemma WithNodeKeepsLinks(s: Shape, node: Node, c: nat, q: nat, level: nat)
    requires Inv(s) && Fits(s, node, c) && q < |s.list| + 1
    ensures InOrder(WithNode(s, node, c)) && LinkOk(WithNode(s, node, c), q, level)
  {
    var t := WithNode(s, node, c);
    WithNodeInOrder(s, node, c);
    if q == c {
      WithNodeAt(s, node, c, 0);
    } else {
      MovedLinkOk(s, node, c, if q < c then q else q - 1, level);
    }
  }

  lemma MovedLinkOk(s: Shape, node: Node, c: nat, p: nat, level: nat)
    requires InOrder(s) && p < |s.list| && LinkOk(s, p, level) && 1 <= c <= |s.list| && InOrder(WithNode(s, node, c))
    ensures Moved(p, c) < |s.list| + 1 && LinkOk(WithNode(s, node, c), Moved(p, c), level)
  {
    hide KeyLt, First;
    WithNodeAt(s, node, c, p);
    FirstMoves(s, node, c, p + 1, level);
    var r := First(s, p + 1, level);
    if r < |s.list| { WithNodeAt(s, node, c, r); }
  }

  lemma WithNodeKeepsInv(s: Shape, node: Node, c: nat)
    requires Inv(s) && Fits(s, node, c)
    ensures Inv(WithNode(s, node, c)) && Keys(WithNode(s, node, c)) == Keys(s)
  {
    var t := WithNode(s, node, c);
    WithNodeInOrder(s, node, c);
    forall q: nat, level: nat | q < |t.list|
      ensures LinkOk(t, q, level)
    {
      WithNodeKeepsLinks(s, node, c, q, level);
    }
    forall k
      ensures k in Keys(s) <==> k in Keys(t)
    {
      WithNodeKeepsKey(s, node, c, k);
    }
  }

  lemma WithNodeKeepsKey(s: Shape, node: Node, c: nat, k: InternalKey)
    requires Indexed(s) && 1 <= c <= |s.list| && Indexed(WithNode(s, node, c))
    ensures k in Keys(s) <==> k in Keys(WithNode(s, node, c))
  {
    var t := WithNode(s, node, c);
    if k in Keys(s) {
      var p :| 1 <= p < |s.list| && LinkedAt(s, p) > 0 && KeyAt(s, p) == k;
      WithNodeAt(s, node, c, p);
      assert LinkedAt(t, Moved(p, c)) > 0 && KeyAt(t, Moved(p, c)) == k;
    }
    if k in Keys(t) {
      var q :| 1 <= q < |t.list| && LinkedAt(t, q) > 0 && KeyAt(t, q) == k;
      WithNodeAt(s, node, c, 0);
      var p := if q < c then q else q - 1;
      WithNodeAt(s, node, c, p);
      assert LinkedAt(s, p) > 0 && KeyAt(s, p) == k;
    }
  }

  // ----- Stores -----

  /** The store into the new node's own link, which no reader can read yet. */
  ghost function OwnLinked(s: Shape, x: nat, level: nat, next: Option<nat>): Shape
    requires x < |s.arena| && level < |s.arena[x].next|
  {
    s.(arena := SetLink(s.arena, x, level, next))
  }

  lemma OwnLinkedInOrder(s: Shape, x: nat, level: nat, next: Option<nat>)
    requires InOrder(s) && x < |s.arena| && level < |s.arena[x].next|
    ensures var t := OwnLinked(s, x, level, next);
            && InOrder(t)
            && forall q :: 0 <= q < |s.list| ==> KeyAt(t, q) == KeyAt(s, q) && LinkedAt(t, q) == LinkedAt(s, q)
  {
    var t := OwnLinked(s, x, level, next);
    assert Indexed(t);
    forall p, q | 1 <= p < q < |t.list|
      ensures KeyLt(KeyAt(t, p), KeyAt(t, q))
    {
      assert KeyLt(KeyAt(s, p), KeyAt(s, q));
    }
  }

  lemma OwnLinkKeepsInv(s: Shape, x: nat, level: nat, next: Option<nat>)
    requires Inv(s) && x < |s.arena| && s.linked[x] <= level < |s.arena[x].next|
    ensures Inv(OwnLinked(s, x, level, next)) && Keys(OwnLinked(s, x, level, next)) == Keys(s)
  {
    var t := OwnLinked(s, x, level, next);
    OwnLinkedInOrder(s, x, level, next);
    forall p: nat, l: nat | p < |t.list|
      ensures LinkOk(t, p, l)
    {
      FirstAfterOwnLink(s, x, level, next, p + 1, l);
      assert LinkOk(s, p, l);
    }
  }

  lemma FirstAfterOwnLink(s: Shape, x: nat, level: nat, next: Option<nat>, p: nat, l: nat)
    requires InOrder(s) && x < |s.arena| && level < |s.arena[x].next| && p <= |s.list|
    ensures InOrder(OwnLinked(s, x, level, next)) && First(OwnLinked(s, x, level, next), p, l) == First(s, p, l)
  {
    OwnLinkedInOrder(s, x, level, next);
    FirstIs(OwnLinked(s, x, level, next), p, l, First(s, p, l));
  }

  /** The store that makes the node of place `px` reachable on `level`, from the node of place `pp`. */
  ghost function Published(s: Shape, pp: nat, px: nat, level: nat): Shape
    requires InOrder(s) && pp < |s.list| && px < |s.list| && level < LinkedAt(s, pp)
  {
    Shape(SetLink(s.arena, s.list[pp], level, Some(s.list[px])), s.list, s.linked[s.list[px] := level + 1])
  }

  /** Nothing linked on `level` lies between the two, and the node's own link is set. */
  ghost predicate Publishable(s: Shape, pp: nat, px: nat, level: nat)
    requires InOrder(s)
  {
    && pp < px < |s.list| && level < LinkedAt(s, pp)
    && LinkedAt(s, px) == level < |s.arena[s.list[px]].next|
    && First(s, pp + 1, level) > px
    && s.arena[s.list[px]].next[level] == PointerTo(s.list, First(s, px + 1, level))
  }

  lemma PublishedInOrder(s: Shape, pp: nat, px: nat, level: nat)
    requires InOrder(s) && Publishable(s, pp, px, level)
    ensures var t := Published(s, pp, px, level);
            && InOrder(t)
            && forall q :: 0 <= q < |s.list| ==>
                 KeyAt(t, q) == KeyAt(s, q) && LinkedAt(t, q) == if q == px then level + 1 else LinkedAt(s, q)
  {
    var t := Published(s, pp, px, level);
    forall q | 0 <= q < |s.list|
      ensures Indexed(t) && LinkedAt(t, q) == if q == px then level + 1 else LinkedAt(s, q)
    {
      PlacesInOrder(s, q, px);
    }
    forall p, q | 1 <= p < q < |t.list|
      ensures KeyLt(KeyAt(t, p), KeyAt(t, q))
    {
      assert KeyLt(KeyAt(s, p), KeyAt(s, q));
    }
  }

  lemma FirstAfterPublish(s: Shape, pp: nat, px: nat, level: nat, p: nat, l: nat)
    requires InOrder(s) && Publishable(s, pp, px, level) && p <= |s.list|
    ensures InOrder(Published(s, pp, px, level))
    ensures First(Published(s, pp, px, level), p, l) == if l == level && p <= px < First(s, p, l) then px else First(s, p, l)
  {
    PublishedInOrder(s, pp, px, level);
    FirstIs(Published(s, pp, px, level), p, l, if l == level && p <= px < First(s, p, l) then px else First(s, p, l));
  }

  lemma InvGives(s: Shape, p: nat, level: nat)
    requires Inv(s) && p < |s.list|
    ensures InOrder(s) && LinkOk(s, p, level)
  {
  }

  lemma PublishKeepsLinks(s: Shape, pp: nat, px: nat, level: nat, p: nat, l: nat)
    requires Inv(s) && Publishable(s, pp, px, level) && p < |s.list|
    ensures InOrder(Published(s, pp, px, level)) && LinkOk(Published(s, pp, px, level), p, l)
  {
    hide KeyLt, First, Inv;
    InvGives(s, p, l);
    PublishedInOrder(s, pp, px, level);
    FirstAfterPublish(s, pp, px, level, p + 1, l);
    assert LinkOk(s, p, l);
    PlacesInOrder(s, p, pp);
    PlacesInOrder(s, px, pp);
  }

  lemma PublishKeepsInv(s: Shape, pp: nat, px: nat, level: nat)
    requires Inv(s) && Publishable(s, pp, px, level)
    ensures Inv(Published(s, pp, px, level))
    ensures px > 0 ==> Keys(Published(s, pp, px, level)) == Keys(s) + {KeyAt(s, px)}
  {
    var t := Published(s, pp, px, level);
    PublishedInOrder(s, pp, px, level);
    forall p: nat, l: nat | p < |t.list|
      ensures LinkOk(t, p, l)
    {
      PublishKeepsLinks(s, pp, px, level, p, l);
    }
  }

  // ----- The search path of an insertion -----

  /** A node of the search path: the last one on `level` below `target`. */
  ghost predicate EndsAt(s: Shape, p: nat, x: nat, level: nat, target: InternalKey)
    requires InOrder(s)
  {
    && StandsAt(s, p, x, target) && level < LinkedAt(s, p)
    && var q := First(s, p + 1, level); q < |s.list| ==> !KeyLt(KeyAt(s, q), target)
  }

  ghost predicate LevelEnds(s: Shape, x: nat, level: nat, target: InternalKey) {
    InOrder(s) && exists p: nat :: EndsAt(s, p, x, level, target)
  }

  /** Every node in the list is linked on all its levels, and at least on one. */
  ghost predicate Quiet(s: Shape) {
    InOrder(s) && forall p :: 0 <= p < |s.list| ==> 0 < LinkedAt(s, p) == |s.arena[s.list[p]].next|
  }

  /** The new node at place `c` can be published on `level` from the node `v`. */
  ghost predicate ReadyAt(s: Shape, pp: nat, v: nat, level: nat, c: nat)
    requires InOrder(s)
  {
    pp < c < |s.list| && s.list[pp] == v && level < LinkedAt(s, pp) && First(s, pp + 1, level) > c
  }

  ghost predicate Ready(s: Shape, v: nat, level: nat, c: nat) {
    InOrder(s) && exists pp: nat :: ReadyAt(s, pp, v, level, c)
  }

  lemma CutFits(s: Shape, p: nat, x: nat, node: Node) returns (c: nat)
    requires Quiet(s) && EndsAt(s, p, x, 0, node.key) && node.key !in Keys(s) && |node.next| <= MAX_HEIGHT
    ensures c == p + 1 && Fits(s, node, c)
  {
    c := p + 1;
    FirstIs(s, c, 0, c);
    forall q | 1 <= q < |s.list|
      ensures if q < c then KeyLt(KeyAt(s, q), node.key) else KeyLt(node.key, KeyAt(s, q))
    {
      assert KeyAt(s, q) in Keys(s) by { assert LinkedAt(s, q) > 0; }
      PlacesInOrder(s, q, p);
      if c < |s.list| { PlacesInOrder(s, q, c); }
    }
  }

  lemma FitsAt(s: Shape, node: Node, c: nat, p: nat)
    requires InOrder(s) && Fits(s, node, c) && p < |s.list|
    ensures p < c <==> p == 0 || KeyLt(KeyAt(s, p), node.key)
  {
    assert 1 <= p < c ==> KeyLt(KeyAt(s, p), node.key);
    assert c <= p ==> KeyLt(node.key, KeyAt(s, p));
  }

  /** Whoever ends a level of the search path is ready to publish the new node there. */
  lemma EndsAreReady(s: Shape, node: Node, c: nat, v: nat, level: nat)
    requires Inv(s) && Fits(s, node, c) && LevelEnds(s, v, level, node.key)
    ensures Ready(WithNode(s, node, c), v, level, c)
  {
    var t := WithNode(s, node, c);
    WithNodeInOrder(s, node, c);
    var p: nat :| EndsAt(s, p, v, level, node.key);
    var q := First(s, p + 1, level);
    FitsAt(s, node, c, p);
    if q < |s.list| { FitsAt(s, node, c, q); }
    FirstMoves(s, node, c, p + 1, level);
    WithNodeAt(s, node, c, p);
    assert ReadyAt(t, p, v, level, c);
  }

  lemma ReadyAfterOwnLink(s: Shape, x: nat, l: nat, next: Option<nat>, v: nat, level: nat, c: nat)
    requires Inv(s) && x < |s.arena| && s.linked[x] <= l < |s.arena[x].next| && Ready(s, v, level, c)
    ensures Ready(OwnLinked(s, x, l, next), v, level, c)
  {
    var pp: nat :| ReadyAt(s, pp, v, level, c);
    OwnLinkedInOrder(s, x, l, next);
    FirstAfterOwnLink(s, x, l, next, pp + 1, level);
    assert ReadyAt(OwnLinked(s, x, l, next), pp, v, level, c);
  }

  lemma ReadyAfterPublish(s: Shape, pp: nat, l: nat, v: nat, level: nat, c: nat)
    requires Inv(s) && Publishable(s, pp, c, l) && Ready(s, v, level, c) && level != l
    ensures Ready(Published(s, pp, c, l), v, level, c)
  {
    var qq: nat :| ReadyAt(s, qq, v, level, c);
    PublishedInOrder(s, pp, c, l);
    FirstAfterPublish(s, pp, c, l, qq + 1, level);
    assert ReadyAt(Published(s, pp, c, l), qq, v, level, c);
  }

  /** The link that the new node takes over leads on to the next node of the level. */
  lemma TakenLink(s: Shape, pp: nat, c: nat, level: nat)
    requires Inv(s) && pp < c < |s.list| && ReadyAt(s, pp, s.list[pp], level, c)
    requires LinkedAt(s, c) == level < |s.arena[s.list[c]].next|
    ensures level < |s.arena[s.list[pp]].next|
    ensures s.arena[s.list[pp]].next[level] == PointerTo(s.list, First(s, c + 1, level))
  {
    assert LinkOk(s, pp, level);
    FirstIs(s, c + 1, level, First(s, pp + 1, level));
  }

  lemma TakenLinkIsPublishable(s: Shape, t: Shape, pp: nat, c: nat, level: nat, next: Option<nat>)
    requires InOrder(s) && pp < c < |s.list| && ReadyAt(s, pp, s.list[pp], level, c)
    requires LinkedAt(s, c) == level < |s.arena[s.list[c]].next|
    requires next == PointerTo(s.list, First(s, c + 1, level))
    requires t == OwnLinked(s, s.list[c], level, next) && InOrder(t)
    ensures Publishable(t, pp, c, level)
  {
    OwnLinkIsSet(s, s.list[c], level, next);
    FirstsAfterOwnLink(s, s.list[c], level, next, pp + 1, c + 1);
    AlsoPublishable(s, t, pp, c, level);
  }

  lemma AlsoPublishable(s: Shape, t: Shape, pp: nat, c: nat, level: nat)
    requires Indexed(s) && InOrder(t) && t.list == s.list && t.linked == s.linked
    requires pp < c < |s.list| && level < LinkedAt(s, pp) && LinkedAt(s, c) == level < |t.arena[t.list[c]].next|
    requires First(t, pp + 1, level) == First(s, pp + 1, level) > c
    requires t.arena[t.list[c]].next[level] == PointerTo(s.list, First(s, c + 1, level))
    requires First(t, c + 1, level) == First(s, c + 1, level)
    ensures Publishable(t, pp, c, level)
  {
  }

  lemma OwnLinkIsSet(s: Shape, x: nat, level: nat, next: Option<nat>)
    requires x < |s.arena| && level < |s.arena[x].next|
    ensures var t := OwnLinked(s, x, level, next);
            t.list == s.list && level < |t.arena[x].next| && t.arena[x].next[level] == next
  {
  }

  lemma FirstsAfterOwnLink(s: Shape, x: nat, level: nat, next: Option<nat>, p: nat, q: nat)
    requires InOrder(s) && x < |s.arena| && level < |s.arena[x].next| && p <= |s.list| && q <= |s.list|
    ensures var t := OwnLinked(s, x, level, next);
            Indexed(t) && t.list == s.list && First(t, p, level) == First(s, p, level) && First(t, q, level) == First(s, q, level)
  {
    FirstAfterOwnLink(s, x, level, next, p, level);
    FirstAfterOwnLink(s, x, level, next, q, level);
  }

  class SkipList {
    var arena: seq<Node>
    var maxHeight: nat
    ghost var list: seq<nat>
    ghost var linked: seq<nat>

    const HEAD: nat := 0

    ghost function State(): Shape
      reads this
    {
      Shape(arena, list, linked)
    }

    /** What holds at any time, also between the stores of an insertion. */
    ghost predicate Valid()
      reads this
    {
      && Inv(State()) && 1 <= maxHeight <= MAX_HEIGHT
      && forall n :: 0 < n < |arena| ==> |arena[n].next| <= maxHeight
    }

    constructor ()
      ensures Valid() && Quiet(State()) && Keys(State()) == {}
    {
      arena := [Node(SeekKey([], 0), [None, None, None, None, None, None, None, None, None, None, None, None])];
      maxHeight, list, linked := 1, [0], [MAX_HEIGHT];
    }

    /** A missing node counts as infinitely large. */
    method KeyIsAfterNode(key: InternalKey, n: Option<nat>) returns (r: bool)
      requires n.Some? ==> n.value < |arena|
      ensures r <==> n.Some? && KeyLt(arena[n.value].key, key)
    {
      r := n.Some? && CompareKeys(arena[n.value].key, key) < 0;
    }

    method FindGreaterOrEqual(key: InternalKey) returns (next: Option<nat>, prev: seq<nat>)
      requires Valid()
      ensures next.Some? ==> OnPlace(State(), next.value)
      ensures IsCeiling(Keys(State()), key, KeyOf(State(), next))
      ensures |prev| == MAX_HEIGHT && forall l :: 0 <= l < maxHeight ==> LevelEnds(State(), prev[l], l, key)
    {
      prev := [0, 0, 0, 0, 0, 0, 0, 0, 0, 0, 0, 0];
      var x: nat, level: nat := HEAD, maxHeight - 1;
      ghost var p: nat := 0;
      while true
        invariant 0 <= level < maxHeight && x < |arena| == |linked| && level < linked[x] && p < |list| && StandsAt(State(), p, x, key)
        invariant |prev| == MAX_HEIGHT && forall l :: level < l < maxHeight ==> LevelEnds(State(), prev[l], l, key)
        decreases level, |list| - p
      {
        LinkRead(State(), p, x, level, key);
        next := arena[x].next[level];
        var after := KeyIsAfterNode(key, next);
        if after {
          x, p := next.value, First(State(), p + 1, level);
        } else {
          prev := prev[level := x];
          assert EndsAt(State(), p, x, level, key);
          if level == 0 {
            SearchEnds(State(), p, x, key);
            LinkToPlace(State(), p);
            return;
          }
          level := level - 1;
        }
      }
    }

    /** The last node before `key`, or the head. */
    method FindLessThan(key: InternalKey) returns (x: nat)
      requires Valid()
      ensures x == HEAD || OnPlace(State(), x)
      ensures IsBelow(Keys(State()), key, if x == HEAD then None else Some(arena[x].key))
    {
      x := HEAD;
      var level: nat := maxHeight - 1;
      ghost var p: nat := 0;
      while true
        invariant 0 <= level < maxHeight && x < |arena| == |linked| && level < linked[x] && p < |list| && StandsAt(State(), p, x, key)
        decreases level, |list| - p
      {
        LinkRead(State(), p, x, level, key);
        var next := arena[x].next[level];
        if next.None? || CompareKeys(arena[next.value].key, key) >= 0 {
          if level == 0 {
            SearchEnds(State(), p, x, key);
            PlacesInOrder(State(), p, 0);
            return;
          }
          level := level - 1;
        } else {
          x, p := next.value, First(State(), p + 1, level);
        }
      }
    }

    /** The last node, or the head. */
    method FindLast() returns (x: nat)
      requires Valid()
      ensures x == HEAD || OnPlace(State(), x)
      ensures IsGreatest(Keys(State()), if x == HEAD then None else Some(arena[x].key))
    {
      x := HEAD;
      var level: nat := maxHeight - 1;
      ghost var p: nat := 0;
      while true
        invariant 0 <= level < maxHeight && x < |arena| == |linked| && p < |list| && list[p] == x && level < linked[x]
        decreases level, |list| - p
      {
        assert LinkOk(State(), p, level);
        var next := arena[x].next[level];
        if next.None? {
          if level == 0 {
            LastPlace(State(), p);
            PlacesInOrder(State(), p, 0);
            return;
          }
          level := level - 1;
        } else {
          x, p := next.value, First(State(), p + 1, level);
        }
      }
    }

    method Contains(key: InternalKey) returns (r: bool)
      requires Valid()
      ensures r <==> key in Keys(State())
    {
      var x, prev := FindGreaterOrEqual(key);
      r := x.Some? && CompareKeys(key, arena[x.value].key) == 0;
    }

    /** `memory` is what the links of the new node hold when it is allocated; its length is the RandomHeight. */
    method Insert(key: InternalKey, memory: seq<Option<nat>>)
      requires Valid() && Quiet(State()) && key !in Keys(State()) && 1 <= |memory| <= MAX_HEIGHT
      modifies this
      ensures Valid() && Quiet(State()) && Keys(State()) == old(Keys(State())) + {key}
      ensures |arena| == old(|arena|) + 1 && arena[|arena| - 1].key == key && |arena[|arena| - 1].next| == |memory|
      ensures maxHeight == if |memory| > old(maxHeight) then |memory| else old(maxHeight)
    {
      var x, prev := FindGreaterOrEqual(key);
      prev := RaiseMaxHeight(key, |memory|, prev);
      ghost var c := NewNode(Node(key, memory), prev);
      LinkNode(|arena| - 1, prev, c);
    }

    method RaiseMaxHeight(ghost key: InternalKey, height: nat, prev0: seq<nat>) returns (prev: seq<nat>)
      requires Valid() && 1 <= height <= MAX_HEIGHT
      requires |prev0| == MAX_HEIGHT && forall l :: 0 <= l < maxHeight ==> LevelEnds(State(), prev0[l], l, key)
      modifies this`maxHeight
      ensures Valid() && maxHeight == if height > old(maxHeight) then height else old(maxHeight)
      ensures |prev| == MAX_HEIGHT && forall l :: 0 <= l < maxHeight ==> LevelEnds(State(), prev[l], l, key)
    {
      prev := prev0;
      if height > maxHeight {
        for i := maxHeight to height
          invariant Valid() && maxHeight == old(maxHeight)
          invariant |prev| == MAX_HEIGHT && forall l :: 0 <= l < i ==> LevelEnds(State(), prev[l], l, key)
        {
          prev := prev[i := HEAD];
          EmptyLevel(State(), maxHeight, i, key);
        }
        maxHeight := height;
      }
    }

    method NewNode(node: Node, ghost prev: seq<nat>) returns (ghost c: nat)
      requires Valid() && Quiet(State()) && node.key !in Keys(State()) && 1 <= |node.next| <= maxHeight
      requires |prev| == MAX_HEIGHT && forall l :: 0 <= l < maxHeight ==> LevelEnds(State(), prev[l], l, node.key)
      modifies this`arena, this`list, this`linked
      ensures Valid() && Keys(State()) == old(Keys(State()))
      ensures arena == old(arena) + [node]
      ensures 1 <= c < |list| && list[c] == |arena| - 1 && LinkedAt(State(), c) == 0
      ensures forall p :: 0 <= p < |list| && p != c ==> 0 < LinkedAt(State(), p) == |arena[list[p]].next|
      ensures forall l :: 0 <= l < |node.next| ==> Ready(State(), prev[l], l, c)
    {
      ghost var s := State();
      assert LevelEnds(s, prev[0], 0, node.key);
      ghost var p: nat :| EndsAt(s, p, prev[0], 0, node.key);
      c := CutFits(s, p, prev[0], node);
      WithNodeKeepsInv(s, node, c);
      forall l | 0 <= l < |node.next|
        ensures Ready(WithNode(s, node, c), prev[l], l, c)
      {
        EndsAreReady(s, node, c, prev[l], l);
      }
      OthersStayQuiet(s, node, c);
      arena := arena + [node];
      list := list[..c] + [|s.arena|] + list[c..];
      linked := linked + [0];
    }

    /** The loop of Insert. The invariant of the list holds before and after each of its two stores. */
    method LinkNode(x: nat, prev: seq<nat>, ghost c: nat)
      requires Valid() && x < |arena| && 1 <= c < |list| && list[c] == x && LinkedAt(State(), c) == 0
      requires |prev| == MAX_HEIGHT && 1 <= |arena[x].next|
      requires forall p :: 0 <= p < |list| && p != c ==> 0 < LinkedAt(State(), p) == |arena[list[p]].next|
      requires forall l :: 0 <= l < |arena[x].next| ==> Ready(State(), prev[l], l, c)
      modifies this`arena, this`linked
      ensures Valid() && Quiet(State()) && Keys(State()) == old(Keys(State())) + {old(arena[x].key)}
      ensures |arena| == old(|arena|) && arena[x].key == old(arena[x].key) && |arena[x].next| == old(|arena[x].next|)
    {
      var height := |arena[x].next|;
      for i := 0 to height
        invariant Valid() && c < |list| && |arena| == old(|arena|) && |arena[x].next| == height && LinkedAt(State(), c) == i
        invariant arena[x].key == old(arena[x].key)
        invariant forall p :: 0 <= p < |list| && p != c ==> 0 < LinkedAt(State(), p) == |arena[list[p]].next|
        invariant forall l :: i <= l < height ==> Ready(State(), prev[l], l, c)
        invariant Keys(State()) == old(Keys(State())) + if i == 0 then {} else {old(arena[x].key)}
      {
        LinkLevel(x, i, prev, c);
      }
    }

    method LinkLevel(x: nat, i: nat, prev: seq<nat>, ghost c: nat)
      requires Valid() && x < |arena| && 1 <= c < |list| && list[c] == x && LinkedAt(State(), c) == i < |arena[x].next|
      requires |prev| == MAX_HEIGHT && forall l :: i <= l < |arena[x].next| ==> Ready(State(), prev[l], l, c)
      modifies this`arena, this`linked
      ensures Valid() && |arena| == old(|arena|) && linked == old(linked)[x := i + 1]
      ensures forall n :: 0 <= n < |arena| ==> |arena[n].next| == |old(arena)[n].next| && arena[n].key == old(arena)[n].key
      ensures forall l :: i < l < |arena[x].next| ==> Ready(State(), prev[l], l, c)
      ensures Keys(State()) == old(Keys(State())) + {arena[x].key}
    {
      hide KeyLt, First, Keys;
      ghost var s := State();
      assert Ready(s, prev[i], i, c);
      ghost var pp: nat :| ReadyAt(s, pp, prev[i], i, c);
      TakenLink(s, pp, c, i);
      var next := arena[prev[i]].next[i];
      OwnLinkedInOrder(s, x, i, next);
      TakenLinkIsPublishable(s, OwnLinked(s, x, i, next), pp, c, i, next);
      SetOwnLink(x, i, next, prev, c);
      PublishLink(x, i, prev, pp, c);
    }

    /** x->NoBarrier_SetNext(i, next). */
    method SetOwnLink(x: nat, i: nat, next: Option<nat>, ghost prev: seq<nat>, ghost c: nat)
      requires Valid() && x < |arena| && linked[x] <= i < |arena[x].next| && |prev| == MAX_HEIGHT
      requires forall l :: i <= l < |arena[x].next| ==> Ready(State(), prev[l], l, c)
      modifies this`arena
      ensures Valid() && State() == OwnLinked(old(State()), x, i, next) && Keys(State()) == old(Keys(State()))
      ensures forall l :: i <= l < |arena[x].next| ==> Ready(State(), prev[l], l, c)
    {
      OwnLinkKeepsInv(State(), x, i, next);
      forall l | i <= l < |arena[x].next|
        ensures Ready(OwnLinked(State(), x, i, next), prev[l], l, c)
      {
        ReadyAfterOwnLink(State(), x, i, next, prev[l], l, c);
      }
      arena := SetLink(arena, x, i, next);
    }

    /** prev[i]->SetNext(i, x). */
    method PublishLink(x: nat, i: nat, prev: seq<nat>, ghost pp: nat, ghost c: nat)
      requires Valid() && Publishable(State(), pp, c, i) && list[c] == x && |prev| == MAX_HEIGHT && list[pp] == prev[i] && 1 <= c
      requires forall l :: i <= l < |arena[x].next| ==> Ready(State(), prev[l], l, c)
      modifies this`arena, this`linked
      ensures Valid() && State() == Published(old(State()), pp, c, i) && Keys(State()) == old(Keys(State())) + {old(arena[x].key)}
      ensures forall l :: i < l < |arena[x].next| ==> Ready(State(), prev[l], l, c)
    {
      PublishKeepsInv(State(), pp, c, i);
      forall l | i < l < |arena[x].next|
        ensures Ready(Published(State(), pp, c, i), prev[l], l, c)
      {
        ReadyAfterPublish(State(), pp, i, prev[l], l, c);
      }
      arena := SetLink(arena, prev[i], i, Some(x));
      linked := linked[x := i + 1];
    }
  }

  lemma EmptyLevel(s: Shape, height: nat, level: nat, key: InternalKey)
    requires InOrder(s) && height <= level < MAX_HEIGHT
    requires forall n :: 0 < n < |s.arena| ==> |s.arena[n].next| <= height
    ensures LevelEnds(s, 0, level, key)
  {
    FirstIs(s, 1, level, |s.list|);
    assert EndsAt(s, 0, 0, level, key);
  }

  lemma OthersStayQuiet(s: Shape, node: Node, c: nat)
    requires Quiet(s) && Fits(s, node, c)
    ensures var t := WithNode(s, node, c);
            && Indexed(t)
            && LinkedAt(t, c) == 0 && t.list[c] == |s.arena|
            && forall p :: 0 <= p < |t.list| && p != c ==> 0 < LinkedAt(t, p) == |t.arena[t.list[p]].next|
  {
    var t := WithNode(s, node, c);
    WithNodeIndexed(s, node, c);
    WithNodeAt(s, node, c, 0);
    forall p | 0 <= p < |t.list| && p != c
      ensures 0 < LinkedAt(t, p) == |t.arena[t.list[p]].next|
    {
      WithNodeAt(s, node, c, if p < c then p else p - 1);
    }
  }

  lemma NothingAfter(s: Shape, p: nat, k: InternalKey)
    requires InOrder(s) && p < |s.list| && First(s, p + 1, 0) == |s.list| && k in Keys(s)
    ensures p > 0 && !KeyLt(KeyAt(s, p), k)
  {
    var at := BetweenPlaces(s, p, k);
    PlacesInOrder(s, at, p);
  }

  lemma LastPlace(s: Shape, p: nat)
    requires Inv(s) && p < |s.list| && 0 < LinkedAt(s, p) && First(s, p + 1, 0) == |s.list|
    ensures IsGreatest(Keys(s), if s.list[p] == 0 then None else Some(KeyAt(s, p)))
  {
    PlacesInOrder(s, p, 0);
    if p > 0 { assert KeyAt(s, p) in Keys(s); }
    forall k | k in Keys(s)
      ensures p > 0 && !KeyLt(KeyAt(s, p), k)
    {
      NothingAfter(s, p, k);
    }
  }

  lemma NextPlace(s: Shape, x: nat)
    requires Inv(s) && OnPlace(s, x)
    ensures |s.arena[x].next| > 0
    ensures var next := s.arena[x].next[0];
            (next.Some? ==> OnPlace(s, next.value)) && IsAbove(Keys(s), s.arena[x].key, KeyOf(s, next))
  {
    var p: nat :| 1 <= p < |s.list| && s.list[p] == x && LinkedAt(s, p) > 0;
    LinkToPlace(s, p);
    var q := First(s, p + 1, 0);
    forall k | k in Keys(s)
      ensures KeyLt(s.arena[x].key, k) ==> q < |s.list| && !KeyLt(k, KeyAt(s, q))
    {
      AfterPlace(s, p, k);
    }
    if q < |s.list| { PlacesInOrder(s, p, q); }
  }

  /** The lowest link of a visible node, or of the head, leads to the next visible node. */
  lemma LinkToPlace(s: Shape, p: nat)
    requires Inv(s) && p < |s.list| && LinkedAt(s, p) > 0
    ensures |s.arena[s.list[p]].next| > 0
    ensures var next, q := s.arena[s.list[p]].next[0], First(s, p + 1, 0);
            && next == PointerTo(s.list, q)
            && (next.Some? ==> q < |s.list| && OnPlace(s, next.value) && KeyAt(s, q) in Keys(s) && KeyOf(s, next) == Some(KeyAt(s, q)))
  {
    assert LinkOk(s, p, 0);
  }

  lemma AfterPlace(s: Shape, p: nat, k: InternalKey)
    requires InOrder(s) && p < |s.list| && k in Keys(s)
    ensures p == 0 || KeyLt(KeyAt(s, p), k) ==> First(s, p + 1, 0) < |s.list| && !KeyLt(k, KeyAt(s, First(s, p + 1, 0)))
  {
    var at := BetweenPlaces(s, p, k);
    PlacesInOrder(s, at, p);
    var q := First(s, p + 1, 0);
    if q < |s.list| { PlacesInOrder(s, at, q); }
  }

  lemma FirstKey(s: Shape)
    requires Inv(s)
    ensures |s.arena[0].next| > 0
    ensures var next := s.arena[0].next[0];
            && (next.Some? ==> OnPlace(s, next.value))
            && (next.None? ==> Keys(s) == {})
            && (next.Some? ==> KeyOf(s, next).Some? && KeyOf(s, next).value in Keys(s))
            && (next.Some? ==> forall k :: k in Keys(s) ==> !KeyLt(k, KeyOf(s, next).value))
  {
    LinkToPlace(s, 0);
    forall k | k in Keys(s)
      ensures First(s, 1, 0) < |s.list| && !KeyLt(k, KeyAt(s, First(s, 1, 0)))
    {
      AfterPlace(s, 0, k);
    }
  }

  /** A position in the list that moves by keys alone. */
  class Iterator {
    const list: SkipList
    var node: Option<nat>

    ghost predicate Valid()
      reads this, list
    {
      list.Valid() && (node.Some? ==> OnPlace(list.State(), node.value))
    }

    ghost function Key(): Option<InternalKey>
      reads this, list
    {
      KeyOf(list.State(), node)
    }

    constructor (list: SkipList)
      requires list.Valid()
      ensures Valid() && this.list == list && node == None
    {
      this.list, node := list, None;
    }

    method Next()
      requires Valid() && node.Some?
      modifies this`node
      ensures Valid() && IsAbove(Keys(list.State()), old(Key()).value, Key())
    {
      NextPlace(list.State(), node.value);
      node := list.arena[node.value].next[0];
    }

    method Prev()
      requires Valid() && node.Some?
      modifies this`node
      ensures Valid() && IsBelow(Keys(list.State()), old(Key()).value, Key())
    {
      var x := list.FindLessThan(list.arena[node.value].key);
      node := Some(x);
      if x == list.HEAD {
        node := None;
      }
    }

    method Seek(target: InternalKey)
      requires Valid()
      modifies this`node
      ensures Valid() && IsCeiling(Keys(list.State()), target, Key())
    {
      var x, prev := list.FindGreaterOrEqual(target);
      node := x;
    }

    method SeekToFirst()
      requires Valid()
      modifies this`node
      ensures Valid() && (Key().None? <==> Keys(list.State()) == {})
      ensures Key().Some? ==> Key().value in Keys(list.State()) && forall k :: k in Keys(list.State()) ==> !KeyLt(k, Key().value)
    {
      FirstKey(list.State());
      node := list.arena[list.HEAD].next[0];
    }

    method SeekToLast()
      requires Valid()
      modifies this`node
      ensures Valid() && IsGreatest(Keys(list.State()), Key())
    {
      var x := list.FindLast();
      node := Some(x);
      if x == list.HEAD {
        node := None;
      }
    }
  }
}
