/**
 * Game objects of src/core/game_object.c. Objects live in an arena: a handle (0 is NULL) maps
 * to the object's fields. The firstChild/nextSibling chain of an object is kept as its
 * `children` sequence: the head is firstChild and each element's successor is its nextSibling.
 * A ghost rank that strictly grows from parent to child witnesses that the hierarchy has no
 * cycle, which is what makes the parent walks terminate.
 */
module GameObjects {
  import opened StdInt
  import opened ComponentBase
  import ComponentRegistry

  /** An arena index standing for a GameObject pointer; 0 is NULL. */
  type Handle = nat

  const MAX_COMPONENTS_PER_OBJECT: nat := 4
  const INVALID_ID: u32 := 0
  /** The first value of g_nextGameObjectId (game_object.c:8). */
  const FIRST_ID: u32 := 1

  datatype GameObjectResult =
    | Success
    | NullObject
    | OutOfMemory
    | ComponentNotFound
    | ComponentAlreadyExists
    | MaxComponentsReached
    | InvalidComponentType
    | HierarchyCycle

  /** The fields of struct GameObject (game_object.h:16-30); componentCount is |components|. */
  datatype GameObject = GameObject(
    id: u32,
    componentMask: ComponentType,
    components: seq<Component>,
    transform: Component?,
    scene: nat,
    parent: Handle,
    children: seq<Handle>,
    active: bool,
    staticObject: bool)

  type Objects = map<Handle, GameObject>

  predicate NoDup(s: seq<Handle>)
  {
    forall i, j :: 0 <= i < j < |s| ==> s[i] != s[j]
  }

  /** The sibling list with `x` unlinked: its first occurrence is dropped. */
  function RemoveFirst(s: seq<Handle>, x: Handle): (r: seq<Handle>)
    ensures x in s ==> |r| == |s| - 1
    ensures x !in s ==> r == s
    ensures forall y :: y in r ==> y in s
    ensures forall y :: y in s && y != x ==> y in r
    ensures NoDup(s) ==> NoDup(r) && x !in r
  {
    if s == [] then []
    else if s[0] == x then s[1..]
    else
      var rest := RemoveFirst(s[1..], x);
      assert NoDup(s) ==> NoDup(s[1..]) && s[0] !in s[1..];
      assert forall k :: 0 < k <= |rest| ==> ([s[0]] + rest)[k] == rest[k - 1];
      [s[0]] + rest
  }

  /** Dropping the element at its first index `i` is unlinking it. */
  lemma {:induction false} RemoveFirstAt(s: seq<Handle>, x: Handle, i: nat)
    requires i < |s| && s[i] == x && x !in s[..i]
    ensures RemoveFirst(s, x) == s[..i] + s[i + 1..]
  {
    if i > 0 {
      assert s[1..][..i - 1] == s[..i][1..];
      RemoveFirstAt(s[1..], x, i - 1);
      assert s[..i] == [s[0]] + s[1..][..i - 1];
      assert s[1..][i..] == s[i + 1..];
    }
  }

  /** The link invariants of one object (game_object.c keeps parent and child lists consistent). */
  ghost predicate Node(objs: Objects, rank: map<Handle, nat>, x: Handle)
    requires x in objs
  {
    var o := objs[x];
    x in rank && |o.components| <= MAX_COMPONENTS_PER_OBJECT && NoDup(o.children) &&
    (o.parent != 0 ==>
      o.parent in objs && o.parent in rank && rank[o.parent] < rank[x] && x in objs[o.parent].children) &&
    (forall c :: c in o.children ==> c in objs && objs[c].parent == x)
  }

  /** A forest: links are mutual, child lists have no repeats and ranks grow downwards. */
  ghost predicate Tree(objs: Objects, rank: map<Handle, nat>)
  {
    0 !in objs && forall x :: x in objs ==> Node(objs, rank, x)
  }

  /** `a` is `x` or one of its ancestors. */
  ghost predicate Descends(objs: Objects, rank: map<Handle, nat>, x: Handle, a: Handle)
    requires Tree(objs, rank) && x in objs
    decreases rank[x]
  {
    assert Node(objs, rank, x);
    x == a || (objs[x].parent != 0 && Descends(objs, rank, objs[x].parent, a))
  }

  /** The objects whose parent walk reaches `a`. */
  ghost function Subtree(objs: Objects, rank: map<Handle, nat>, a: Handle): set<Handle>
    requires Tree(objs, rank)
  {
    set x | x in objs && Descends(objs, rank, x, a)
  }

  /** An ancestor has a smaller rank. */
  lemma {:induction false} DescendsRank(objs: Objects, rank: map<Handle, nat>, x: Handle, a: Handle)
    requires Tree(objs, rank) && x in objs && Descends(objs, rank, x, a)
    ensures a in objs && a in rank && x in rank && rank[a] <= rank[x]
    ensures a != x ==> rank[a] < rank[x]
    decreases rank[x]
  {
    assert Node(objs, rank, x);
    if x != a {
      DescendsRank(objs, rank, objs[x].parent, a);
    }
  }

  /** The objects after `child` leaves its parent: game_object.c:197-213 and its parent := NULL. */
  function Detach(objs: Objects, child: Handle): Objects
    requires child in objs
  {
    var p := objs[child].parent;
    var unlinked := if p != 0 && p in objs then objs[p := objs[p].(children := RemoveFirst(objs[p].children, child))] else objs;
    unlinked[child := objs[child].(parent := 0)]
  }

  /** The objects after a parentless `child` is put at the head of `parent`'s list (215-222). */
  function Attach(objs: Objects, child: Handle, parent: Handle): Objects
    requires child in objs && parent in objs
  {
    var linked := objs[child := objs[child].(parent := parent)];
    linked[parent := objs[parent].(children := [child] + objs[parent].children)]
  }

  /** The objects after game_object_set_parent(child, parent) succeeds. */
  function Reparent(objs: Objects, child: Handle, parent: Handle): Objects
    requires child in objs && (parent == 0 || parent in objs) && parent != child
  {
    var detached := Detach(objs, child);
    if parent == 0 then detached else Attach(detached, child, parent)
  }

  /** Ranks that keep growing downwards once `child`'s subtree hangs below `parent`. */
  ghost function Rerank(objs: Objects, rank: map<Handle, nat>, child: Handle, parent: Handle): map<Handle, nat>
    requires Tree(objs, rank) && (parent == 0 || parent in objs)
  {
    if parent == 0 then rank
    else
      assert Node(objs, rank, parent);
      map x | x in rank :: if x in objs && Descends(objs, rank, x, child) then rank[x] + rank[parent] + 1 else rank[x]
  }

  /** Unlinking keeps a forest with the same ranks. */
  lemma DetachTree(objs: Objects, rank: map<Handle, nat>, child: Handle)
    requires Tree(objs, rank) && child in objs
    ensures Tree(Detach(objs, child), rank)
  {
    var d := Detach(objs, child);
    var p := objs[child].parent;
    assert Node(objs, rank, child);
    forall x | x in d
      ensures Node(d, rank, x)
    {
      assert Node(objs, rank, x);
      var q := objs[x].parent;
      if q != 0 {
        assert Node(objs, rank, q);
      }
      forall c | c in d[x].children
        ensures c in d && d[c].parent == x
      {
        assert c in objs[x].children;
        assert Node(objs, rank, c);
      }
    }
  }

  /** Unlinking `child` from above does not change which objects lie below it. */
  lemma {:induction false} DetachDescends(objs: Objects, rank: map<Handle, nat>, child: Handle, x: Handle)
    requires Tree(objs, rank) && child in objs && x in objs && Tree(Detach(objs, child), rank)
    ensures Descends(Detach(objs, child), rank, x, child) == Descends(objs, rank, x, child)
    decreases rank[x]
  {
    assert Node(objs, rank, x);
    if x != child && objs[x].parent != 0 {
      DetachDescends(objs, rank, child, objs[x].parent);
    }
  }

  /** Re-parenting below a node that is not in `child`'s subtree keeps a forest. */
  lemma ReparentTree(objs: Objects, rank: map<Handle, nat>, child: Handle, parent: Handle)
    requires Tree(objs, rank) && child in objs
    requires parent == 0 || (parent in objs && !Descends(objs, rank, parent, child))
    ensures parent != child
    ensures Tree(Reparent(objs, child, parent), Rerank(objs, rank, child, parent))
  {
    DetachTree(objs, rank, child);
    if parent != 0 {
      forall x | x in Reparent(objs, child, parent)
        ensures Node(Reparent(objs, child, parent), Rerank(objs, rank, child, parent), x)
      {
        ReparentNode(objs, rank, child, parent, x);
      }
    }
  }

  /** One object's links after `child` moves below `parent`. */
  lemma ReparentNode(objs: Objects, rank: map<Handle, nat>, child: Handle, parent: Handle, x: Handle)
    requires Tree(objs, rank) && child in objs && Tree(Detach(objs, child), rank)
    requires parent in objs && !Descends(objs, rank, parent, child)
    requires x in objs
    ensures parent != child
    ensures Node(Reparent(objs, child, parent), Rerank(objs, rank, child, parent), x)
  {
    ReparentDown(objs, rank, child, parent, x);
    ReparentUp(objs, rank, child, parent, x);
  }

  /** After the move, `x`'s child list is still a repeat-free list of objects whose parent is `x`. */
  lemma ReparentDown(objs: Objects, rank: map<Handle, nat>, child: Handle, parent: Handle, x: Handle)
    requires Tree(objs, rank) && child in objs && Tree(Detach(objs, child), rank)
    requires parent in objs && parent != child && x in objs
    ensures var a := Reparent(objs, child, parent);
      x in a && NoDup(a[x].children) && forall c :: c in a[x].children ==> c in a && a[c].parent == x
  {
    var d := Detach(objs, child);
    var a := Attach(d, child, parent);
    assert Node(d, rank, parent) && Node(d, rank, x);
    assert child !in d[parent].children;
    if x == parent {
      NoDupCons(child, d[parent].children);
    }
    forall c | c in a[x].children
      ensures c in a && a[c].parent == x
    {
      if c != child {
        assert c in d[x].children;
      }
    }
  }

  /** After the move, `x`'s parent still lists it. */
  lemma ReparentUp(objs: Objects, rank: map<Handle, nat>, child: Handle, parent: Handle, x: Handle)
    requires Tree(objs, rank) && child in objs && Tree(Detach(objs, child), rank)
    requires parent in objs && !Descends(objs, rank, parent, child)
    requires x in objs
    ensures parent != child
    ensures var a := Reparent(objs, child, parent); var r := Rerank(objs, rank, child, parent);
      x in a && x in r && |a[x].components| <= MAX_COMPONENTS_PER_OBJECT &&
      (a[x].parent != 0 ==> a[x].parent in a && a[x].parent in r && r[a[x].parent] < r[x] && x in a[a[x].parent].children)
  {
    var d := Detach(objs, child);
    assert Node(objs, rank, child) && Node(d, rank, x);
    ReparentRank(objs, rank, child, parent, x);
    var q := d[x].parent;
    if x != child && q != 0 {
      assert Node(d, rank, q);
    }
  }

  /** After the move, `x`'s parent still has a smaller rank. */
  lemma ReparentRank(objs: Objects, rank: map<Handle, nat>, child: Handle, parent: Handle, x: Handle)
    requires Tree(objs, rank) && child in objs && Tree(Detach(objs, child), rank)
    requires parent in objs && !Descends(objs, rank, parent, child)
    requires x in objs
    ensures parent != child
    ensures var a := Reparent(objs, child, parent); var r := Rerank(objs, rank, child, parent);
      x in a && x in r && (a[x].parent != 0 ==> a[x].parent in a && a[x].parent in r && r[a[x].parent] < r[x])
  {
    if x == child {
      RerankMoved(objs, rank, child, parent);
    } else {
      RerankOther(objs, rank, child, parent, x);
    }
  }

  /** The moved object ranks below its new parent. */
  lemma RerankMoved(objs: Objects, rank: map<Handle, nat>, child: Handle, parent: Handle)
    requires Tree(objs, rank) && child in objs && Tree(Detach(objs, child), rank)
    requires parent in objs && !Descends(objs, rank, parent, child)
    ensures parent != child
    ensures var a := Reparent(objs, child, parent); var r := Rerank(objs, rank, child, parent);
      child in a && child in r && a[child].parent == parent && parent in a && parent in r && r[parent] < r[child]
  {
    var r := Rerank(objs, rank, child, parent);
    assert Node(objs, rank, parent) && Node(objs, rank, child);
    assert r[parent] == rank[parent] && r[child] == rank[child] + rank[parent] + 1;
  }

  /** Any other object keeps a parent of smaller rank. */
  lemma RerankOther(objs: Objects, rank: map<Handle, nat>, child: Handle, parent: Handle, x: Handle)
    requires Tree(objs, rank) && child in objs && Tree(Detach(objs, child), rank)
    requires parent in objs && !Descends(objs, rank, parent, child)
    requires x in objs && x != child
    ensures parent != child
    ensures var a := Reparent(objs, child, parent); var r := Rerank(objs, rank, child, parent);
      x in a && x in r && (a[x].parent != 0 ==> a[x].parent in a && a[x].parent in r && r[a[x].parent] < r[x])
  {
    var d := Detach(objs, child);
    assert Node(objs, rank, parent) && Node(objs, rank, child) && Node(d, rank, x);
    var q := d[x].parent;
    if q != 0 {
      assert Node(d, rank, q);
      assert q == objs[x].parent;
      assert Descends(objs, rank, x, child) == Descends(objs, rank, q, child);
    }
  }

  lemma NoDupCons(c: Handle, s: seq<Handle>)
    requires NoDup(s) && c !in s
    ensures NoDup([c] + s)
  {
    assert forall k :: 0 < k <= |s| ==> ([c] + s)[k] == s[k - 1];
  }

  /** What set_parent changes: `child`'s parent field, the old parent's list loses `child`,
    * the new parent's list gains it at the head; no other object changes. */
  lemma ReparentEffect(objs: Objects, rank: map<Handle, nat>, child: Handle, parent: Handle)
    requires Tree(objs, rank) && child in objs && (parent == 0 || parent in objs) && parent != child
    ensures var a := Reparent(objs, child, parent);
      a.Keys == objs.Keys && a[child] == objs[child].(parent := parent) &&
      forall x :: x in objs && x != child && x != objs[child].parent && x != parent ==> a[x] == objs[x]
    ensures var a := Reparent(objs, child, parent); var p := objs[child].parent;
      p != 0 && p != parent ==>
        a[p] == objs[p].(children := a[p].children) && child !in a[p].children &&
        |a[p].children| == |objs[p].children| - 1
    ensures var a := Reparent(objs, child, parent); var p := objs[child].parent;
      parent != 0 ==>
        a[parent] == objs[parent].(children := a[parent].children) && a[parent].children[0] == child &&
        |a[parent].children| == |objs[parent].children| + (if parent == p then 0 else 1)
  {
    assert Node(objs, rank, child);
    var p := objs[child].parent;
    if p != 0 {
      assert Node(objs, rank, p);
    }
    ReparentLinks(objs, child, parent);
  }

  /** ReparentEffect for a child whose parent, if any, lists it exactly once. */
  lemma ReparentLinks(objs: Objects, child: Handle, parent: Handle)
    requires child in objs && (parent == 0 || parent in objs) && parent != child
    requires var p := objs[child].parent;
      p != child && (p != 0 ==> p in objs && NoDup(objs[p].children) && child in objs[p].children)
    ensures var a := Reparent(objs, child, parent);
      a.Keys == objs.Keys && a[child] == objs[child].(parent := parent) &&
      forall x :: x in objs && x != child && x != objs[child].parent && x != parent ==> a[x] == objs[x]
    ensures var a := Reparent(objs, child, parent); var p := objs[child].parent;
      p != 0 && p != parent ==>
        a[p] == objs[p].(children := a[p].children) && child !in a[p].children &&
        |a[p].children| == |objs[p].children| - 1
    ensures var a := Reparent(objs, child, parent); var p := objs[child].parent;
      parent != 0 ==>
        a[parent] == objs[parent].(children := a[parent].children) && a[parent].children[0] == child &&
        |a[parent].children| == |objs[parent].children| + (if parent == p then 0 else 1)
  {
  }

  /** The subtrees of the first `n` entries of `kids`. */
  ghost function Forest(objs: Objects, rank: map<Handle, nat>, kids: seq<Handle>, n: nat): set<Handle>
    requires Tree(objs, rank) && n <= |kids|
  {
    if n == 0 then {} else Forest(objs, rank, kids, n - 1) + Subtree(objs, rank, kids[n - 1])
  }

  lemma {:induction false} ForestMember(objs: Objects, rank: map<Handle, nat>, kids: seq<Handle>, n: nat, y: Handle)
    requires Tree(objs, rank) && n <= |kids|
    ensures y in Forest(objs, rank, kids, n) <==> exists j :: 0 <= j < n && y in Subtree(objs, rank, kids[j])
  {
    if n > 0 {
      ForestMember(objs, rank, kids, n - 1, y);
    }
  }

  /** Descent is transitive. */
  lemma {:induction false} DescendsTrans(objs: Objects, rank: map<Handle, nat>, x: Handle, a: Handle, b: Handle)
    requires Tree(objs, rank) && x in objs && a in objs
    requires Descends(objs, rank, x, a) && Descends(objs, rank, a, b)
    ensures Descends(objs, rank, x, b)
    decreases rank[x]
  {
    assert Node(objs, rank, x);
    if x != a {
      DescendsTrans(objs, rank, objs[x].parent, a, b);
    }
  }

  /** Two ancestors of one object are ordered by descent. */
  lemma {:induction false} DescendsComparable(objs: Objects, rank: map<Handle, nat>, y: Handle, a: Handle, b: Handle)
    requires Tree(objs, rank) && y in objs
    requires Descends(objs, rank, y, a) && Descends(objs, rank, y, b)
    ensures a in objs && b in objs
    ensures Descends(objs, rank, a, b) || Descends(objs, rank, b, a)
    decreases rank[y]
  {
    assert Node(objs, rank, y);
    DescendsRank(objs, rank, y, a);
    DescendsRank(objs, rank, y, b);
    if y != a && y != b {
      DescendsComparable(objs, rank, objs[y].parent, a, b);
    }
  }

  /** Subtrees of two different children of one object are disjoint. */
  lemma SiblingsDisjoint(objs: Objects, rank: map<Handle, nat>, h: Handle, i: nat, j: nat, y: Handle)
    requires Tree(objs, rank) && h in objs && i < |objs[h].children| && j < |objs[h].children| && i != j
    requires y in objs
    ensures !(Descends(objs, rank, y, objs[h].children[i]) && Descends(objs, rank, y, objs[h].children[j]))
  {
    var kids := objs[h].children;
    assert Node(objs, rank, h);
    if Descends(objs, rank, y, kids[i]) && Descends(objs, rank, y, kids[j]) {
      DescendsComparable(objs, rank, y, kids[i], kids[j]);
      assert Node(objs, rank, kids[i]) && Node(objs, rank, kids[j]);
      assert kids[i] != kids[j];
      if Descends(objs, rank, kids[i], kids[j]) {
        DescendsRank(objs, rank, h, kids[j]);
      } else {
        DescendsRank(objs, rank, h, kids[i]);
      }
    }
  }

  /** Below `h`, every object lies in exactly the subtree of one child of `h`. */
  lemma {:induction false} ChildOnPath(objs: Objects, rank: map<Handle, nat>, y: Handle, h: Handle) returns (j: nat)
    requires Tree(objs, rank) && y in objs && h in objs && y != h && Descends(objs, rank, y, h)
    ensures j < |objs[h].children| && Descends(objs, rank, y, objs[h].children[j])
    decreases rank[y]
  {
    assert Node(objs, rank, y);
    var q := objs[y].parent;
    assert Node(objs, rank, q);
    if q == h {
      j :| 0 <= j < |objs[h].children| && objs[h].children[j] == y;
    } else {
      j := ChildOnPath(objs, rank, q, h);
    }
  }

  /** An object's subtree is the object together with its children's subtrees. */
  lemma SubtreeSplit(objs: Objects, rank: map<Handle, nat>, h: Handle)
    requires Tree(objs, rank) && h in objs
    ensures Subtree(objs, rank, h) == {h} + Forest(objs, rank, objs[h].children, |objs[h].children|)
  {
    var kids := objs[h].children;
    assert Node(objs, rank, h);
    forall y | y in Subtree(objs, rank, h) && y != h
      ensures y in Forest(objs, rank, kids, |kids|)
    {
      var j := ChildOnPath(objs, rank, y, h);
      ForestMember(objs, rank, kids, |kids|, y);
    }
    forall y | y in Forest(objs, rank, kids, |kids|)
      ensures y in Subtree(objs, rank, h)
    {
      ForestMember(objs, rank, kids, |kids|, y);
      var j :| 0 <= j < |kids| && y in Subtree(objs, rank, kids[j]);
      assert Node(objs, rank, kids[j]);
      DescendsTrans(objs, rank, y, kids[j], h);
    }
  }

  /** The handles listed in `s`. */
  ghost function Members(s: seq<Handle>): set<Handle>
  {
    set x | x in s
  }

  lemma NoDupAppend(a: seq<Handle>, b: seq<Handle>)
    requires NoDup(a) && NoDup(b) && Members(a) !! Members(b)
    ensures NoDup(a + b) && Members(a + b) == Members(a) + Members(b)
  {
    forall i, j | 0 <= i < j < |a + b|
      ensures (a + b)[i] != (a + b)[j]
    {
      if i < |a| && j >= |a| {
        assert (a + b)[i] in Members(a) && (a + b)[j] == b[j - |a|] && b[j - |a|] in Members(b);
      }
    }
  }

  /** The components of the listed objects, in list order. */
  function ComponentsOf(objs: Objects, hs: seq<Handle>): seq<Component>
    requires forall k :: k in hs ==> k in objs
  {
    if hs == [] then [] else objs[hs[0]].components + ComponentsOf(objs, hs[1..])
  }

  lemma {:induction false} ComponentsAppend(objs: Objects, a: seq<Handle>, b: seq<Handle>)
    requires forall k :: k in a + b ==> k in objs
    ensures ComponentsOf(objs, a + b) == ComponentsOf(objs, a) + ComponentsOf(objs, b)
  {
    if a != [] {
      assert (a + b)[1..] == a[1..] + b;
      ComponentsAppend(objs, a[1..], b);
    } else {
      assert a + b == b;
    }
  }

  lemma {:induction false} ComponentsAgree(o1: Objects, o2: Objects, hs: seq<Handle>)
    requires forall k :: k in hs ==> k in o1 && k in o2 && o1[k].components == o2[k].components
    ensures ComponentsOf(o1, hs) == ComponentsOf(o2, hs)
  {
    if hs != [] {
      ComponentsAgree(o1, o2, hs[1..]);
    }
  }

  /** `after` is `before` once `a`'s whole subtree is gone and `a` is unlinked from its parent. */
  ghost predicate PrunedFrom(before: Objects, after: Objects, rank: map<Handle, nat>, a: Handle)
    requires Tree(before, rank) && a in before
  {
    var p := before[a].parent;
    after.Keys == before.Keys - Subtree(before, rank, a) &&
    (forall x :: x in after && x != p ==> after[x] == before[x]) &&
    (p != 0 ==> p in after && after[p] == before[p].(children := RemoveFirst(before[p].children, a)))
  }

  /** `now` is `before` once the subtrees of `h`'s first `i` children are gone. */
  ghost predicate Trimmed(before: Objects, now: Objects, rank: map<Handle, nat>, h: Handle, i: nat)
    requires Tree(before, rank) && h in before && i <= |before[h].children|
  {
    now.Keys == before.Keys - Forest(before, rank, before[h].children, i) &&
    h in now && now[h] == before[h].(children := before[h].children[i..]) &&
    forall x :: x in now && x != h ==> now[x] == before[x]
  }

  /** Descent only follows parent links, so a sub-forest with the same links agrees on it. */
  lemma {:induction false} DescendsRestrict(big: Objects, small: Objects, rank: map<Handle, nat>, x: Handle, a: Handle)
    requires Tree(big, rank) && Tree(small, rank) && x in small && small.Keys <= big.Keys
    requires forall y :: y in small ==> small[y].parent == big[y].parent
    ensures Descends(small, rank, x, a) == Descends(big, rank, x, a)
    decreases rank[x]
  {
    assert Node(small, rank, x);
    if x != a && small[x].parent != 0 {
      DescendsRestrict(big, small, rank, small[x].parent, a);
    }
  }

  /** Before destroying `h`'s child number `i`: its subtree is intact and apart from the rest. */
  lemma DestroyChild(before: Objects, now: Objects, rank: map<Handle, nat>, h: Handle, i: nat)
    requires Tree(before, rank) && Tree(now, rank) && h in before && i < |before[h].children|
    requires Trimmed(before, now, rank, h, i)
    ensures var c := before[h].children[i];
      c in now && h in rank && c in rank && rank[h] < rank[c] &&
      Subtree(now, rank, c) == Subtree(before, rank, c) &&
      Subtree(before, rank, c) !! Forest(before, rank, before[h].children, i) &&
      h !in Subtree(before, rank, c)
  {
    var kids := before[h].children;
    var c := kids[i];
    assert Node(before, rank, h) && Node(before, rank, c);
    forall y | y in Subtree(before, rank, c)
      ensures y !in Forest(before, rank, kids, i) && y != h
    {
      ForestMember(before, rank, kids, i, y);
      if y in Forest(before, rank, kids, i) {
        var j :| 0 <= j < i && y in Subtree(before, rank, kids[j]);
        SiblingsDisjoint(before, rank, h, i, j, y);
      }
      DescendsRank(before, rank, y, c);
    }
    assert c in now by {
      assert c in Subtree(before, rank, c);
    }
    forall y | y in now
      ensures now[y].parent == before[y].parent
    {
    }
    forall y | y in now
      ensures Descends(now, rank, y, c) == Descends(before, rank, y, c)
    {
      DescendsRestrict(before, now, rank, y, c);
    }
  }

  /** After destroying `h`'s child number `i`, its subtree has joined the removed ones. */
  lemma DestroyNext(before: Objects, now: Objects, after: Objects, rank: map<Handle, nat>, h: Handle, i: nat)
    requires Tree(before, rank) && Tree(now, rank) && h in before && i < |before[h].children|
    requires Trimmed(before, now, rank, h, i)
    requires before[h].children[i] in now && Subtree(now, rank, before[h].children[i]) == Subtree(before, rank, before[h].children[i])
    requires PrunedFrom(now, after, rank, before[h].children[i])
    ensures Trimmed(before, after, rank, h, i + 1)
  {
    var kids := before[h].children;
    assert now[kids[i]].parent == h;
    assert kids[i..][1..] == kids[i + 1..];
  }

  /** The last step of game_object_destroy: the childless `h`, now parentless, is removed. */
  lemma DestroyFinish(before: Objects, now: Objects, mid: Objects, rank: map<Handle, nat>, h: Handle)
    requires Tree(before, rank) && Tree(now, rank) && Tree(mid, rank) && h in before
    requires Trimmed(before, now, rank, h, |before[h].children|)
    requires mid == if now[h].parent != 0 then Detach(now, h) else now
    ensures PrunedFrom(before, mid - {h}, rank, h) && Tree(mid - {h}, rank)
  {
    FinishKeys(before, now, rank, h);
    FinishShape(before, now, mid, rank, h);
    RemoveLeaf(mid, rank, h);
  }

  /** The objects left when `h` goes are those outside its subtree. */
  lemma FinishKeys(before: Objects, now: Objects, rank: map<Handle, nat>, h: Handle)
    requires Tree(before, rank) && h in before
    requires Trimmed(before, now, rank, h, |before[h].children|)
    ensures now.Keys - {h} == before.Keys - Subtree(before, rank, h)
    ensures before[h].parent != 0 ==> before[h].parent in now && before[h].parent != h
  {
    SubtreeSplit(before, rank, h);
    assert Node(before, rank, h);
    var p := before[h].parent;
    if p != 0 {
      assert p !in Subtree(before, rank, h) by {
        if p in Subtree(before, rank, h) {
          DescendsRank(before, rank, p, h);
        }
      }
    }
  }

  /** Unlinking the childless `h` from its parent touches only that parent's list. */
  lemma FinishShape(before: Objects, now: Objects, mid: Objects, rank: map<Handle, nat>, h: Handle)
    requires Tree(before, rank) && Tree(now, rank) && h in before
    requires Trimmed(before, now, rank, h, |before[h].children|)
    requires before[h].parent != 0 ==> before[h].parent in now && before[h].parent != h
    requires mid == if now[h].parent != 0 then Detach(now, h) else now
    ensures mid.Keys == now.Keys && mid[h].parent == 0 && mid[h].children == []
    ensures var p := before[h].parent;
      (forall x :: x in mid && x != h && x != p ==> mid[x] == before[x]) &&
      (p != 0 ==> p in mid && mid[p] == before[p].(children := RemoveFirst(before[p].children, h)))
  {
    var p := before[h].parent;
    if p != 0 {
      assert Node(now, rank, h) && Node(now, rank, p);
      ReparentLinks(now, h, 0);
    }
  }

  /** Removing an object with no parent and no children keeps a forest. */
  lemma RemoveLeaf(objs: Objects, rank: map<Handle, nat>, h: Handle)
    requires Tree(objs, rank) && h in objs && objs[h].parent == 0 && objs[h].children == []
    ensures Tree(objs - {h}, rank)
  {
    var e := objs - {h};
    forall x | x in e
      ensures Node(e, rank, x)
    {
      assert Node(objs, rank, x);
      forall c | c in e[x].children
        ensures c in e && e[c].parent == x
      {
        assert c in objs[x].children;
      }
    }
  }

  /** Every object has a rank below `maxRank`. */
  ghost predicate Bounded(objs: Objects, rank: map<Handle, nat>, maxRank: nat)
  {
    forall x :: x in objs ==> x in rank && rank[x] < maxRank
  }

  /** Every live object carries an id that was handed out. */
  ghost predicate Issued(objs: Objects, issued: set<u32>)
  {
    forall x :: x in objs ==> objs[x].id in issued
  }

  /** Re-parenting keeps every object's id. */
  lemma ReparentIds(objs: Objects, rank: map<Handle, nat>, issued: set<u32>, child: Handle, parent: Handle)
    requires Tree(objs, rank) && Issued(objs, issued)
    requires child in objs && (parent == 0 || parent in objs) && parent != child
    ensures Issued(Reparent(objs, child, parent), issued)
  {
    ReparentEffect(objs, rank, child, parent);
  }

  /** Re-parenting keeps the rank bound once it is raised by the new parent's rank. */
  lemma ReparentBounded(objs: Objects, rank: map<Handle, nat>, maxRank: nat, child: Handle, parent: Handle)
    requires Tree(objs, rank) && Bounded(objs, rank, maxRank)
    requires child in objs && parent in objs && parent != child
    ensures parent in rank
    ensures Bounded(Reparent(objs, child, parent), Rerank(objs, rank, child, parent), maxRank + rank[parent] + 1)
  {
    ReparentEffect(objs, rank, child, parent);
    assert Node(objs, rank, parent);
  }

  /** The forest, rank bound and ids after a re-parenting whose target is outside `child`'s subtree. */
  lemma ReparentValid(objs: Objects, rank: map<Handle, nat>, maxRank: nat, issued: set<u32>, child: Handle, parent: Handle)
    returns (bound: nat)
    requires Tree(objs, rank) && Bounded(objs, rank, maxRank) && Issued(objs, issued) && child in objs
    requires parent == 0 || (parent in objs && !Descends(objs, rank, parent, child))
    ensures parent != child
    ensures parent == 0 ==> bound == maxRank
    ensures Tree(Reparent(objs, child, parent), Rerank(objs, rank, child, parent))
    ensures Bounded(Reparent(objs, child, parent), Rerank(objs, rank, child, parent), bound)
    ensures Issued(Reparent(objs, child, parent), issued)
  {
    ReparentTree(objs, rank, child, parent);
    ReparentIds(objs, rank, issued, child, parent);
    bound := maxRank;
    if parent != 0 {
      ReparentBounded(objs, rank, maxRank, child, parent);
      bound := maxRank + rank[parent] + 1;
    }
  }

  /** The object game_object_create_with_name builds around a new transform. */
  function NewObject(id: u32, scene: nat, transform: Component): GameObject
  {
    GameObject(id, TRANSFORM, [transform], transform, scene, 0, [], true, false)
  }

  /** A new object with no links joins the forest as a root of rank 0. */
  lemma AddRoot(objs: Objects, rank: map<Handle, nat>, maxRank: nat, h: Handle, o: GameObject)
    requires Tree(objs, rank) && Bounded(objs, rank, maxRank) && h != 0 && h !in objs
    requires o.parent == 0 && o.children == [] && |o.components| <= MAX_COMPONENTS_PER_OBJECT
    ensures Tree(objs[h := o], rank[h := 0]) && Bounded(objs[h := o], rank[h := 0], maxRank + 1)
  {
    var a := objs[h := o];
    forall x | x in a
      ensures Node(a, rank[h := 0], x)
    {
      if x != h {
        assert Node(objs, rank, x);
      }
    }
  }

  /** The object once `c`, of type `t`, is appended (game_object.c:111-117). */
  function WithComponent(o: GameObject, c: Component, t: ComponentType): GameObject
  {
    o.(components := o.components + [c], componentMask := o.componentMask | t,
       transform := if t == TRANSFORM then c else o.transform)
  }

  /** The object once its component at `i` is dropped and the bits of `t` cleared (137-148). */
  function WithoutComponent(o: GameObject, i: nat, t: ComponentType): GameObject
    requires i < |o.components|
  {
    o.(components := o.components[..i] + o.components[i + 1..], componentMask := o.componentMask & !t)
  }

  /** After adding a component of type `t`, the mask answers for `t` and for all it answered before. */
  lemma AddedMask(o: GameObject, c: Component, t: ComponentType, u: ComponentType)
    ensures MaskHas(WithComponent(o, c, t).componentMask, u) <==> MaskHas(o.componentMask, u) || MaskHas(t, u)
  {
    var m := o.componentMask;
    MaskJoin(m, t, u);
    assert WithComponent(o, c, t).componentMask == m | t;
  }

  lemma MaskJoin(m: ComponentType, t: ComponentType, u: ComponentType)
    ensures MaskHas(m | t, u) <==> MaskHas(m, u) || MaskHas(t, u)
  {
    OrAnd(m, t, u);
    OrIsZero(m & u, t & u);
  }

  lemma OrAnd(m: ComponentType, t: ComponentType, u: ComponentType)
    ensures (m | t) & u == (m & u) | (t & u)
  {
  }

  lemma ClearedBits(m: ComponentType, t: ComponentType, u: ComponentType)
    ensures (u & !t) == 0 ==> ((m & !t) & u) == 0
    ensures (u & t) == 0 ==> ((m & !t) & u) == (m & u)
  {
  }

  lemma MaskCleared(m: ComponentType, t: ComponentType, u: ComponentType)
    ensures (u & !t) == 0 ==> !MaskHas(m & !t, u)
    ensures (u & t) == 0 ==> (MaskHas(m & !t, u) <==> MaskHas(m, u))
  {
    ClearedBits(m, t, u);
  }

  /** After removing with type `t`, the mask no longer answers for any bit of `t`, and keeps the others. */
  lemma RemovedMask(o: GameObject, i: nat, t: ComponentType, u: ComponentType)
    requires i < |o.components|
    ensures (u & !t) == 0 ==> !MaskHas(WithoutComponent(o, i, t).componentMask, u)
    ensures (u & t) == 0 ==> (MaskHas(WithoutComponent(o, i, t).componentMask, u) <==> MaskHas(o.componentMask, u))
  {
    MaskCleared(o.componentMask, t, u);
  }

  /** Index of the first listed component whose type shares a bit with `t`, or the length. */
  function FirstMatch(cs: seq<Component>, t: ComponentType): (i: nat)
    reads cs
    ensures i <= |cs|
    ensures i < |cs| ==> MaskHas(cs[i].componentType, t)
    ensures forall k :: 0 <= k < i ==> !MaskHas(cs[k].componentType, t)
  {
    if cs == [] then 0
    else if MaskHas(cs[0].componentType, t) then 0
    else 1 + FirstMatch(cs[1..], t)
  }

  /** A first match found by scanning is the one FirstMatch names. */
  lemma {:induction false} FirstMatchAt(cs: seq<Component>, t: ComponentType, i: nat)
    requires i <= |cs| && forall k :: 0 <= k < i ==> !MaskHas(cs[k].componentType, t)
    requires i < |cs| ==> MaskHas(cs[i].componentType, t)
    ensures FirstMatch(cs, t) == i
  {
    if i > 0 {
      FirstMatchAt(cs[1..], t, i - 1);
    }
  }

  /** What game_object_get_component returns for an object (game_object.c:156-173). */
  function Lookup(o: GameObject, t: ComponentType): Component?
    reads o.components
  {
    if t == TRANSFORM then o.transform
    else
      var i := FirstMatch(o.components, t);
      if i < |o.components| then o.components[i] else null
  }

  /** A new object holds its transform and nothing else, is active, not static and unlinked. */
  lemma NewObjectShape(id: u32, scene: nat, transform: Component, u: ComponentType)
    ensures var o := NewObject(id, scene, transform);
      |o.components| == 1 && o.components[0] == transform &&
      Lookup(o, TRANSFORM) == transform &&
      (MaskHas(o.componentMask, u) <==> MaskHas(TRANSFORM, u)) &&
      (u != TRANSFORM && !MaskHas(transform.componentType, u) ==> Lookup(o, u) == null) &&
      o.active && !o.staticObject && o.parent == 0 && o.children == [] && o.id == id && o.scene == scene
  {
    var o := NewObject(id, scene, transform);
    if u != TRANSFORM && !MaskHas(transform.componentType, u) {
      FirstMatchAt(o.components, u, 1);
    }
  }

  /** A component added under a type no earlier component matches is what get_component finds. */
  lemma LookupAdded(o: GameObject, c: Component, u: ComponentType)
    requires u != TRANSFORM && FirstMatch(o.components, u) == |o.components|
    requires MaskHas(c.componentType, u)
    ensures Lookup(WithComponent(o, c, c.componentType), u) == c
  {
    var cs := WithComponent(o, c, c.componentType).components;
    assert forall k :: 0 <= k < |o.components| ==> cs[k] == o.components[k];
    FirstMatchAt(cs, u, |o.components|);
  }

  /** The shift loop of game_object_remove_component: entries after `i` move down one place. */
  method ShiftOut<T>(cs: seq<T>, i: nat) returns (r: seq<T>)
    requires i < |cs|
    ensures r == cs[..i] + cs[i + 1..]
  {
    var a := cs;
    var j := i;
    while j < |cs| - 1
      invariant i <= j <= |cs| - 1 && |a| == |cs|
      invariant forall k :: 0 <= k < i ==> a[k] == cs[k]
      invariant forall k :: i <= k < j ==> a[k] == cs[k + 1]
      invariant forall k :: j <= k < |cs| ==> a[k] == cs[k]
    {
      a := a[j := a[j + 1]];
      j := j + 1;
    }
    r := a[..|cs| - 1];
    forall k | 0 <= k < |r|
      ensures r[k] == (cs[..i] + cs[i + 1..])[k]
    {
      if k >= i {
        assert (cs[..i] + cs[i + 1..])[k] == cs[i + 1..][k - i];
      }
    }
  }

  /** The second half of game_object_set_parent (214-222): set the parent, then push on its list. */
  function Link(unlinked: Objects, child: Handle, parent: Handle): Objects
    requires child in unlinked && (parent == 0 || parent in unlinked)
  {
    var moved := unlinked[child := unlinked[child].(parent := parent)];
    if parent != 0 then moved[parent := moved[parent].(children := [child] + moved[parent].children)] else moved
  }

  /** The field writes of game_object_set_parent, done in the source's order, re-parent `child`. */
  lemma RelinkSteps(objs: Objects, child: Handle, parent: Handle, unlinked: Objects, linked: Objects)
    requires child in objs && (parent == 0 || parent in objs) && parent != child && objs[child].parent != child
    requires unlinked == (var p := objs[child].parent;
      if p != 0 && p in objs then objs[p := objs[p].(children := RemoveFirst(objs[p].children, child))] else objs)
    requires linked == Link(unlinked, child, parent)
    ensures linked == Reparent(objs, child, parent)
  {
  }

  /** Changing an object's fields other than its links keeps the forest. */
  lemma Relabel(objs: Objects, rank: map<Handle, nat>, h: Handle, o: GameObject)
    requires Tree(objs, rank) && h in objs && |o.components| <= MAX_COMPONENTS_PER_OBJECT
    requires o.parent == objs[h].parent && o.children == objs[h].children
    ensures Tree(objs[h := o], rank)
  {
    var a := objs[h := o];
    forall x | x in a
      ensures Node(a, rank, x)
    {
      assert Node(objs, rank, x);
      if objs[x].parent != 0 {
        assert Node(objs, rank, objs[x].parent);
      }
    }
  }

  /** The destroyed list grows by the subtree of `h`'s child number `i`. */
  lemma GoneStep(before: Objects, now: Objects, rank: map<Handle, nat>, h: Handle, i: nat,
                 gone: seq<Handle>, g: seq<Handle>, released: seq<Component>, rel: seq<Component>)
    requires Tree(before, rank) && Tree(now, rank) && h in before && i < |before[h].children|
    requires Trimmed(before, now, rank, h, i)
    requires Members(gone) == Forest(before, rank, before[h].children, i) && NoDup(gone)
    requires (forall k :: k in gone ==> k in before) && released == ComponentsOf(before, gone)
    requires Members(g) == Subtree(now, rank, before[h].children[i]) && NoDup(g)
    requires (forall k :: k in g ==> k in now) && rel == ComponentsOf(now, g)
    ensures Members(gone + g) == Forest(before, rank, before[h].children, i + 1) && NoDup(gone + g)
    ensures (forall k :: k in gone + g ==> k in before) && released + rel == ComponentsOf(before, gone + g)
  {
    DestroyChild(before, now, rank, h, i);
    NoDupAppend(gone, g);
    GoneKept(before, now, rank, h, i, g);
    ComponentsAgree(now, before, g);
    ComponentsAppend(before, gone, g);
  }

  /** Objects still present during the child loop were present before it, with their components. */
  lemma GoneKept(before: Objects, now: Objects, rank: map<Handle, nat>, h: Handle, i: nat, g: seq<Handle>)
    requires Tree(before, rank) && h in before && i <= |before[h].children|
    requires Trimmed(before, now, rank, h, i)
    requires forall k :: k in g ==> k in now
    ensures forall k :: k in g ==> k in before && now[k].components == before[k].components
  {
  }

  /** The state of game_object_destroy's child loop after `i` children of `h`. */
  ghost predicate Progress(before: Objects, now: Objects, rank: map<Handle, nat>, h: Handle, i: nat,
                           gone: seq<Handle>, released: seq<Component>)
  {
    Tree(before, rank) && h in before && i <= |before[h].children| &&
    Trimmed(before, now, rank, h, i) &&
    Members(gone) == Forest(before, rank, before[h].children, i) && NoDup(gone) &&
    (forall k :: k in gone ==> k in before) && released == ComponentsOf(before, gone)
  }

  /** Destroying child number `i` advances the loop state to `next`. */
  lemma ProgressStep(before: Objects, now: Objects, after: Objects, rank: map<Handle, nat>, h: Handle, i: nat, next: nat,
                     gone: seq<Handle>, g: seq<Handle>, released: seq<Component>, rel: seq<Component>)
    requires Tree(now, rank) && Progress(before, now, rank, h, i, gone, released)
    requires i < |before[h].children| && next == i + 1
    requires before[h].children[i] in now
    requires PrunedFrom(now, after, rank, before[h].children[i])
    requires Members(g) == Subtree(now, rank, before[h].children[i]) && NoDup(g)
    requires (forall k :: k in g ==> k in now) && rel == ComponentsOf(now, g)
    ensures Progress(before, after, rank, h, next, gone + g, released + rel)
  {
    DestroyChild(before, now, rank, h, i);
    DestroyNext(before, now, after, rank, h, i);
    GoneStep(before, now, rank, h, i, gone, g, released, rel);
  }

  /** Appending `h` itself completes its subtree, and its components come last. */
  lemma GoneFinish(before: Objects, rank: map<Handle, nat>, h: Handle, gone: seq<Handle>, released: seq<Component>)
    requires Tree(before, rank) && h in before
    requires Members(gone) == Forest(before, rank, before[h].children, |before[h].children|) && NoDup(gone)
    requires (forall k :: k in gone ==> k in before) && released == ComponentsOf(before, gone)
    ensures Members(gone + [h]) == Subtree(before, rank, h) && NoDup(gone + [h])
    ensures (forall k :: k in gone + [h] ==> k in before)
    ensures released + before[h].components == ComponentsOf(before, gone + [h])
  {
    var kids := before[h].children;
    SubtreeSplit(before, rank, h);
    assert Node(before, rank, h);
    assert h !in Members(gone) by {
      ForestMember(before, rank, kids, |kids|, h);
      if h in Members(gone) {
        var j :| 0 <= j < |kids| && h in Subtree(before, rank, kids[j]);
        assert Node(before, rank, kids[j]);
        DescendsRank(before, rank, h, kids[j]);
      }
    }
    NoDupAppend(gone, [h]);
    ComponentsAppend(before, gone, [h]);
    assert ComponentsOf(before, [h]) == before[h].components + ComponentsOf(before, []);
  }

  /** The value facts behind the tail of game_object_destroy. */
  lemma LeafStep(before: Objects, now: Objects, mid: Objects, rank: map<Handle, nat>, h: Handle,
                 gone: seq<Handle>, released: seq<Component>)
    requires Tree(now, rank) && Tree(mid, rank) && h in before
    requires Progress(before, now, rank, h, |before[h].children|, gone, released)
    requires mid == if now[h].parent != 0 then Detach(now, h) else now
    ensures h in mid && mid[h].parent == 0 && mid[h].children == []
    ensures PrunedFrom(before, mid - {h}, rank, h)
    ensures Members(gone + [h]) == Subtree(before, rank, h) && NoDup(gone + [h])
    ensures forall k :: k in gone + [h] ==> k in before
    ensures released + mid[h].components == ComponentsOf(before, gone + [h])
  {
    GoneFinish(before, rank, h, gone, released);
    DestroyFinish(before, now, mid, rank, h);
  }

  /** component_registry_destroy as game_object_remove_component uses it: its result is ignored. */
  method DestroyComponent(reg: ComponentRegistry.Registry, c: Component)
    requires reg.Valid()
    modifies c, reg.pools
    ensures reg.Valid()
    ensures c.events == old(c.events) + Fire(true, old(c.vtable), DestroyHook)
  {
    var _ := reg.Destroy(c);
  }

  /** The search loop of game_object_remove_component. */
  method FindMatch(cs: seq<Component>, t: ComponentType) returns (i: nat)
    ensures i == FirstMatch(cs, t)
  {
    i := 0;
    while i < |cs|
      invariant i <= |cs| && forall k :: 0 <= k < i ==> !MaskHas(cs[k].componentType, t)
    {
      if MaskHas(cs[i].componentType, t) {
        FirstMatchAt(cs, t, i);
        return;
      }
      i := i + 1;
    }
    FirstMatchAt(cs, t, i);
  }

  /** Every game object, indexed by handle, and the g_nextGameObjectId counter. */
  class World {
    var objects: Objects
    /** g_nextGameObjectId: the id the next created object gets. */
    var nextId: u32
    /** A rank per object, strictly growing from parent to child. */
    ghost var rank: map<Handle, nat>
    ghost var maxRank: nat
    /** The ids handed out so far. */
    ghost var issued: set<u32>
    /** False once the counter has wrapped around. */
    ghost var counting: bool

    ghost predicate Valid()
      reads this
    {
      Tree(objects, rank) && Bounded(objects, rank, maxRank) && Issued(objects, issued) && IdsValid()
    }

    /** While the counter has not wrapped, every id handed out is nonzero and below the next one. */
    ghost predicate IdsValid()
      reads this`nextId, this`issued, this`counting
    {
      counting ==> nextId != 0 && forall x :: x in issued ==> 0 < x < nextId
    }

    /** No objects yet; the counter at its initial value. */
    constructor()
      ensures Valid() && objects == map[] && nextId == FIRST_ID && issued == {} && counting
    {
      objects := map[];
      nextId := FIRST_ID;
      rank := map[];
      maxRank := 0;
      issued := {};
      counting := true;
    }

    /** game_object_is_valid: false for NULL and for an object whose id was cleared. */
    function IsValid(h: Handle): (r: bool)
      reads this
      requires h == 0 || h in objects
      ensures r ==> h != 0 && h in objects && objects[h].id != INVALID_ID
    {
      h != 0 && objects[h].id != INVALID_ID
    }

    /** game_object_has_component: the mask test, false for NULL and for type NONE. */
    function HasComponent(h: Handle, t: ComponentType): (r: bool)
      reads this
      requires h == 0 || h in objects
      ensures r ==> h != 0 && t != NONE && objects[h].componentMask != NONE
    {
      h != 0 && MaskHas(objects[h].componentMask, t)
    }

    /** game_object_get_component_count. */
    function GetComponentCount(h: Handle): (n: nat)
      reads this
      requires Valid() && (h == 0 || h in objects)
      ensures n <= MAX_COMPONENTS_PER_OBJECT
    {
      if h == 0 then 0 else assert Node(objects, rank, h); |objects[h].components|
    }

    /** The components attached to `h`. */
    function Attachments(h: Handle): seq<Component>
      reads this
    {
      if h in objects then objects[h].components else []
    }

    /**
     * game_object_create_with_name. `slot` is what object_pool_alloc on the scene's pool returned
     * (0 when it is exhausted) and `transform` what transform_component_create returned. Adding
     * the object to the scene is Scenes.Scene.AddGameObject.
     */
    method Create(scene: nat, slot: Handle, transform: Component?) returns (h: Handle)
      requires Valid() && slot !in objects
      modifies this
      ensures Valid()
      ensures h == 0 <==> scene == 0 || slot == 0 || transform == null
      ensures scene == 0 || slot == 0 ==> unchanged(this)
      ensures scene != 0 && slot != 0 ==>
        nextId == Wrap32(old(nextId) + 1) && issued == old(issued) + {old(nextId)}
      ensures h == 0 ==> objects == old(objects)
      ensures h != 0 ==> h == slot && objects == old(objects)[h := NewObject(old(nextId), scene, transform)]
      ensures h != 0 && old(counting) ==>
        objects[h].id != INVALID_ID && forall x :: x in old(objects) ==> old(objects)[x].id != objects[h].id
      ensures h != 0 && old(counting) ==> IsValid(h)
    {
      if scene == 0 || slot == 0 {
        return 0;
      }
      var id := TakeId();
      if transform == null {
        // The transform could not be created: the object goes back to the pool, the id stays used.
        return 0;
      }
      AddObject(slot, NewObject(id, scene, transform));
      h := slot;
    }

    /** g_nextGameObjectId++. */
    method TakeId() returns (id: u32)
      requires IdsValid()
      modifies this`nextId, this`issued, this`counting
      ensures IdsValid()
      ensures id == old(nextId) && nextId == Wrap32(old(nextId) + 1)
      ensures issued == old(issued) + {id}
      ensures old(counting) ==> id != 0 && id !in old(issued)
    {
      id := nextId;
      ghost var wasCounting := counting;
      issued := issued + {nextId};
      nextId := Wrap32(nextId + 1);
      counting := wasCounting && nextId != 0;
    }

    /** Store a new unlinked object under a free handle. */
    method AddObject(h: Handle, o: GameObject)
      requires Valid() && h != 0 && h !in objects && o.id in issued
      requires o.parent == 0 && o.children == [] && |o.components| <= MAX_COMPONENTS_PER_OBJECT
      modifies this`objects, this`rank, this`maxRank
      ensures Valid() && objects == old(objects)[h := o]
    {
      AddRoot(objects, rank, maxRank, h, o);
      objects := objects[h := o];
      rank := rank[h := 0];
      maxRank := maxRank + 1;
    }

    /** Replace an object's fields other than its links. */
    method SetObject(h: Handle, o: GameObject)
      requires Valid() && h in objects && o.id == objects[h].id
      requires o.parent == objects[h].parent && o.children == objects[h].children
      requires |o.components| <= MAX_COMPONENTS_PER_OBJECT
      modifies this`objects
      ensures Valid() && objects == old(objects)[h := o]
    {
      Relabel(objects, rank, h, o);
      objects := objects[h := o];
    }

    /**
     * game_object_add_component: NULL arguments first, then a type already in the mask, then
     * a full component array; otherwise the component is appended.
     */
    method AddComponent(h: Handle, c: Component?) returns (r: GameObjectResult)
      requires Valid() && (h == 0 || h in objects)
      modifies this`objects
      ensures Valid()
      ensures r == NullObject <==> h == 0 || c == null
      ensures r == ComponentAlreadyExists <==>
        h != 0 && c != null && MaskHas(old(objects[h].componentMask), c.componentType)
      ensures r == MaxComponentsReached <==>
        h != 0 && c != null && !MaskHas(old(objects[h].componentMask), c.componentType) &&
        |old(objects[h].components)| == MAX_COMPONENTS_PER_OBJECT
      ensures r in {Success, NullObject, ComponentAlreadyExists, MaxComponentsReached}
      ensures r != Success ==> objects == old(objects)
      ensures r == Success ==> objects == old(objects)[h := WithComponent(old(objects[h]), c, c.componentType)]
      ensures r == ComponentAlreadyExists ==> HasComponent(h, c.componentType)
      ensures r == Success && c.componentType != NONE ==> HasComponent(h, c.componentType)
    {
      if h == 0 || c == null {
        return NullObject;
      }
      var o := objects[h];
      assert Node(objects, rank, h);
      if MaskHas(o.componentMask, c.componentType) {
        return ComponentAlreadyExists;
      }
      if |o.components| >= MAX_COMPONENTS_PER_OBJECT {
        return MaxComponentsReached;
      }
      SetObject(h, WithComponent(o, c, c.componentType));
      r := Success;
    }

    /** game_object_get_component: the cached transform, or the first component matching `t`. */
    method GetComponent(h: Handle, t: ComponentType) returns (c: Component?)
      requires h == 0 || h in objects
      ensures c == if h == 0 then null else Lookup(objects[h], t)
    {
      if h == 0 {
        return null;
      }
      if t == TRANSFORM {
        return objects[h].transform;
      }
      var cs := objects[h].components;
      var i := 0;
      while i < |cs|
        invariant i <= |cs| && forall k :: 0 <= k < i ==> !MaskHas(cs[k].componentType, t)
      {
        if MaskHas(cs[i].componentType, t) {
          FirstMatchAt(cs, t, i);
          return cs[i];
        }
        i := i + 1;
      }
      FirstMatchAt(cs, t, i);
      c := null;
    }

    /**
     * game_object_remove_component: the transform cannot be removed; otherwise the first
     * component matching `t` is destroyed through the registry, the later ones move down and
     * the bits of `t` leave the mask.
     */
    method RemoveComponent(h: Handle, t: ComponentType, reg: ComponentRegistry.Registry) returns (r: GameObjectResult)
      requires Valid() && reg.Valid() && (h == 0 || h in objects)
      modifies this`objects, reg.pools, Attachments(h)
      ensures Valid() && reg.Valid()
      ensures r == NullObject <==> h == 0
      ensures r == InvalidComponentType <==> h != 0 && t == TRANSFORM
      ensures r == ComponentNotFound <==>
        h != 0 && t != TRANSFORM && old(FirstMatch(objects[h].components, t)) == |old(objects[h].components)|
      ensures r in {Success, NullObject, InvalidComponentType, ComponentNotFound}
      ensures r != Success ==> objects == old(objects)
      ensures r == Success ==>
        var i := old(FirstMatch(objects[h].components, t));
        var c := old(objects[h].components[i]);
        objects == old(objects)[h := WithoutComponent(old(objects[h]), i, t)] &&
        c.events == old(c.events) + Fire(true, old(c.vtable), DestroyHook)
      ensures r == Success ==> !HasComponent(h, t)
    {
      if h == 0 {
        return NullObject;
      }
      if t == TRANSFORM {
        return InvalidComponentType;
      }
      var i := FindMatch(objects[h].components, t);
      if i == |objects[h].components| {
        return ComponentNotFound;
      }
      DestroyAt(h, i, t, reg);
      r := Success;
    }

    /** Destroy component `i` of `h` through the registry, then close the gap. */
    method DestroyAt(h: Handle, i: nat, t: ComponentType, reg: ComponentRegistry.Registry)
      requires Valid() && reg.Valid() && h in objects && i < |objects[h].components|
      modifies this`objects, reg.pools, objects[h].components[i]
      ensures Valid() && reg.Valid()
      ensures objects == old(objects)[h := WithoutComponent(old(objects[h]), i, t)]
      ensures var c := old(objects[h].components[i]); c.events == old(c.events) + Fire(true, old(c.vtable), DestroyHook)
    {
      var o := objects[h];
      DestroyComponent(reg, o.components[i]);
      var rest := ShiftOut(o.components, i);
      Drop(h, o, i, t, rest);
    }

    /** Store `o` with its component `i` gone and the bits of `t` cleared. */
    method Drop(h: Handle, o: GameObject, i: nat, t: ComponentType, rest: seq<Component>)
      requires Valid() && h in objects && objects[h] == o && i < |o.components|
      requires rest == o.components[..i] + o.components[i + 1..]
      modifies this`objects
      ensures Valid() && objects == old(objects)[h := WithoutComponent(o, i, t)]
    {
      assert Node(objects, rank, h);
      SetObject(h, o.(components := rest, componentMask := o.componentMask & !t));
    }

    /**
     * game_object_set_parent: a NULL child is refused; a parent at or below the child would
     * close a cycle and is refused; otherwise the child leaves its old parent's list and goes
     * to the head of the new parent's list.
     */
    method SetParent(child: Handle, parent: Handle) returns (r: GameObjectResult)
      requires Valid() && (child == 0 || child in objects) && (parent == 0 || parent in objects)
      modifies this`objects, this`rank, this`maxRank
      ensures Valid()
      ensures r == NullObject <==> child == 0
      ensures r == HierarchyCycle <==> child != 0 && parent != 0 && old(Descends(objects, rank, parent, child))
      ensures r in {Success, NullObject, HierarchyCycle}
      ensures r != Success ==> unchanged(this)
      ensures r == Success ==> parent != child && objects == Reparent(old(objects), child, parent)
      ensures parent == 0 ==> rank == old(rank) && maxRank == old(maxRank)
    {
      if child == 0 {
        return NullObject;
      }
      var cycle := CycleWalk(child, parent);
      if cycle {
        return HierarchyCycle;
      }
      assert parent != 0 ==> Node(objects, rank, parent);
      var unlinked := UnlinkWalk(child);
      var linked := Link(unlinked, child, parent);
      RelinkSteps(objects, child, parent, unlinked, linked);
      Relink(child, parent, linked);
      r := Success;
    }

    /** The cycle check of game_object_set_parent: walk up from `parent` looking for `child`. */
    method CycleWalk(child: Handle, parent: Handle) returns (cycle: bool)
      requires Valid() && child in objects && (parent == 0 || parent in objects)
      ensures cycle <==> parent != 0 && Descends(objects, rank, parent, child)
      ensures !cycle ==> parent != child
    {
      assert parent != 0 ==> Node(objects, rank, parent);
      var current := parent;
      while current != 0
        invariant current == 0 || (current in objects && current in rank)
        invariant parent != 0 ==>
          (Descends(objects, rank, parent, child) <==> current != 0 && Descends(objects, rank, current, child))
        decreases if current == 0 then 0 else rank[current] + 1
      {
        if current == child {
          assert Descends(objects, rank, current, child);
          return true;
        }
        assert Node(objects, rank, current);
        current := objects[current].parent;
      }
      assert parent != 0 ==> Descends(objects, rank, child, child);
      cycle := false;
    }

    /** The unlinking of game_object_set_parent: walk the old parent's sibling list to `child`. */
    method UnlinkWalk(child: Handle) returns (unlinked: Objects)
      requires Valid() && child in objects
      ensures var p := objects[child].parent;
        unlinked == if p != 0 && p in objects then objects[p := objects[p].(children := RemoveFirst(objects[p].children, child))] else objects
      ensures objects[child].parent != child
    {
      assert Node(objects, rank, child);
      var oldParent := objects[child].parent;
      unlinked := objects;
      if oldParent != 0 {
        var kids := objects[oldParent].children;
        var i := 0;
        while i < |kids| && kids[i] != child
          invariant i <= |kids| && child !in kids[..i] && child in kids[i..]
        {
          i := i + 1;
        }
        if i < |kids| {
          RemoveFirstAt(kids, child, i);
          unlinked := objects[oldParent := objects[oldParent].(children := kids[..i] + kids[i + 1..])];
        }
      }
    }

    /** Store the re-parented objects with ranks that keep growing downwards. */
    method Relink(child: Handle, parent: Handle, linked: Objects)
      requires Valid() && child in objects && (parent == 0 || parent in objects)
      requires parent == 0 || !Descends(objects, rank, parent, child)
      requires parent != child && linked == Reparent(objects, child, parent)
      modifies this`objects, this`rank, this`maxRank
      ensures Valid() && objects == linked
      ensures parent == 0 ==> rank == old(rank) && maxRank == old(maxRank)
    {
      var bound := ReparentValid(objects, rank, maxRank, issued, child, parent);
      rank := Rerank(objects, rank, child, parent);
      maxRank := bound;
      objects := linked;
    }

    /**
     * game_object_destroy: first each child in turn, the next sibling read before the child
     * goes; then the object leaves its parent. `gone` lists the destroyed objects in that
     * order (what scene_remove_game_object and object_pool_free receive) and `released`
     * their components (what component_registry_destroy receives), child subtrees first.
     */
    method Destroy(h: Handle) returns (gone: seq<Handle>, released: seq<Component>)
      requires Valid() && (h == 0 || h in objects)
      modifies this`objects, this`rank, this`maxRank
      ensures Valid() && rank == old(rank) && maxRank == old(maxRank)
      ensures h == 0 ==> objects == old(objects) && gone == [] && released == []
      ensures h != 0 ==> PrunedFrom(old(objects), objects, rank, h)
      ensures h != 0 ==> Members(gone) == Subtree(old(objects), rank, h) && NoDup(gone)
      ensures forall k :: k in gone ==> k in old(objects)
      ensures h != 0 ==> released == ComponentsOf(old(objects), gone)
      decreases if h in rank && rank[h] < maxRank then maxRank - rank[h] else 0, 2
    {
      if h == 0 {
        return [], [];
      }
      ghost var before := objects;
      gone, released := DestroyChildren(h);
      gone, released := DestroyLeaf(h, before, gone, released);
    }

    /** The tail of game_object_destroy: `h`, whose children are gone, is unlinked and freed. */
    method DestroyLeaf(h: Handle, ghost before: Objects, gone: seq<Handle>, released: seq<Component>)
      returns (gone': seq<Handle>, released': seq<Component>)
      requires Valid() && h in before && Progress(before, objects, rank, h, |before[h].children|, gone, released)
      modifies this`objects, this`rank, this`maxRank
      ensures Valid() && rank == old(rank) && maxRank == old(maxRank)
      ensures PrunedFrom(before, objects, rank, h)
      ensures Members(gone') == Subtree(before, rank, h) && NoDup(gone')
      ensures forall k :: k in gone' ==> k in before
      ensures released' == ComponentsOf(before, gone')
    {
      ghost var now := objects;
      Orphan(h);
      LeafStep(before, now, objects, rank, h, gone, released);
      released' := released + objects[h].components;
      RemoveLeafObject(h);
      gone' := gone + [h];
    }

    /** The game_object_set_parent(h, NULL) call of game_object_destroy, made when `h` has a parent. */
    method Orphan(h: Handle)
      requires Valid() && h in objects
      modifies this`objects, this`rank, this`maxRank
      ensures Valid() && rank == old(rank) && maxRank == old(maxRank)
      ensures objects == if old(objects)[h].parent != 0 then Detach(old(objects), h) else old(objects)
    {
      if objects[h].parent != 0 {
        var r := SetParent(h, 0);
        assert r == Success;
      }
    }

    /** The child loop of game_object_destroy. */
    method DestroyChildren(h: Handle) returns (gone: seq<Handle>, released: seq<Component>)
      requires Valid() && h in objects
      modifies this`objects, this`rank, this`maxRank
      ensures Valid() && rank == old(rank) && maxRank == old(maxRank)
      ensures Progress(old(objects), objects, rank, h, |old(objects)[h].children|, gone, released)
      decreases if h in rank && rank[h] < maxRank then maxRank - rank[h] else 0, 1
    {
      ghost var before := objects;
      gone, released := [], [];
      var kids := objects[h].children;
      var i := 0;
      while i < |kids|
        invariant Valid() && rank == old(rank) && maxRank == old(maxRank)
        invariant kids == before[h].children
        invariant Progress(before, objects, rank, h, i, gone, released)
      {
        var next := i + 1;
        gone, released := DestroyKid(h, kids, i, next, before, gone, released);
        i := next;
      }
      assert i == |before[h].children|;
    }

    /** One pass of the child loop: child number `i` of `h` and its subtree go. */
    method DestroyKid(h: Handle, kids: seq<Handle>, i: nat, next: nat, ghost before: Objects,
                      gone: seq<Handle>, released: seq<Component>)
      returns (gone': seq<Handle>, released': seq<Component>)
      requires Valid() && Progress(before, objects, rank, h, i, gone, released)
      requires kids == before[h].children && i < |kids| && next == i + 1
      modifies this`objects, this`rank, this`maxRank
      ensures Valid() && rank == old(rank) && maxRank == old(maxRank)
      ensures Progress(before, objects, rank, h, next, gone', released')
      decreases if h in rank && rank[h] < maxRank then maxRank - rank[h] else 0, 0
    {
      DestroyChild(before, objects, rank, h, i);
      ghost var now := objects;
      var g, rel := Destroy(kids[i]);
      ProgressStep(before, now, objects, rank, h, i, next, gone, g, released, rel);
      gone', released' := gone + g, released + rel;
    }

    /** scene_remove_game_object and object_pool_free for an unlinked object. */
    method RemoveLeafObject(h: Handle)
      requires Valid() && h in objects && objects[h].parent == 0 && objects[h].children == []
      modifies this`objects
      ensures Valid() && objects == old(objects) - {h}
    {
      RemoveLeaf(objects, rank, h);
      objects := objects - {h};
    }

    /** game_object_get_child_count: walk firstChild, then nextSibling, counting. */
    method GetChildCount(h: Handle) returns (n: nat)
      requires h == 0 || h in objects
      ensures n == if h == 0 then 0 else |objects[h].children|
    {
      n := 0;
      if h == 0 {
        return;
      }
      var rest := objects[h].children;
      while rest != []
        invariant n + |rest| == |objects[h].children|
      {
        n := n + 1;
        rest := rest[1..];
      }
    }
  }
}
