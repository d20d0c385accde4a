/**
 * The scene bookkeeping of src/core/scene.c: the list of objects and of root objects, the
 * batch arrays of transform, sprite and collision components, the table of component
 * systems, the lifecycle state with its callbacks and the frame counter of scene_update.
 * Game objects are the handles and values of GameObjects; callbacks and batch functions are
 * outside the model, so each call the scene makes is appended to a ghost event trace.
 */
module Scenes {
  import opened StdInt
  import opened ComponentBase
  import GameObjects

  type Handle = GameObjects.Handle
  type Objects = GameObjects.Objects

  /** scene.h: systems[32]. */
  const MAX_SYSTEMS: nat := 32
  /** scene_create sets up component pools for the first eight type bits only (63-71). */
  const BASIC_POOLS: nat := 8
  /** scene_update runs the priorities 0 to 9 (376). */
  const PRIORITY_LEVELS: nat := 10
  /** scene_create never makes the root list shorter than this (41). */
  const MIN_ROOT_CAPACITY: u32 := 10
  /** name[64] holds at most 63 characters and the terminator. */
  const NAME_LENGTH: nat := 63
  const DEFAULT_NAME: string := "UnnamedScene"

  datatype SceneState = Inactive | Loading | Active | Paused | Unloading

  datatype SceneResult = SceneOk | SceneNullPointer | SceneOutOfMemory | ObjectNotFound | ScenePoolFull | InvalidState | SystemNotFound

  /** Which of the onLoad, onUnload, onActivate and onDeactivate pointers are non-NULL. */
  datatype Callbacks = Callbacks(onLoad: bool, onUnload: bool, onActivate: bool, onDeactivate: bool)

  /**
   * A call the scene makes: one of its lifecycle callbacks, or a system's updateBatch on a
   * batch of `count` components during priority pass `pass`.
   */
  datatype SceneEvent =
    | LoadCalled
    | UnloadCalled
    | ActivateCalled
    | DeactivateCalled
    | BatchUpdated(pass: nat, updateBatch: nat, componentType: ComponentType, count: nat)

  /** A ComponentSystem; its batch functions are told apart by number, 0 standing for NULL. */
  datatype ComponentSystem = ComponentSystem(componentType: ComponentType, updateBatch: nat, renderBatch: nat,
                                             enabled: bool, priority: u32)

  /** The lengths of the three batch arrays. */
  datatype Counts = Counts(transforms: nat, sprites: nat, collisions: nat)

  // ---- scene_create ----

  /** rootObjectCapacity: a quarter of the object capacity, but at least 10 (40-41). */
  function RootCapacity(capacity: u32): (r: u32)
    ensures r >= MIN_ROOT_CAPACITY && r >= capacity / 4
    ensures r == MIN_ROOT_CAPACITY || r == capacity / 4
  {
    if capacity / 4 < MIN_ROOT_CAPACITY then MIN_ROOT_CAPACITY else capacity / 4
  }

  /** The name strncpy leaves in name[64]: the default for NULL, cut to 63 characters (25-26). */
  function SceneName(name: Option<string>): (r: string)
    ensures |r| <= NAME_LENGTH
    ensures name.None? ==> r == DEFAULT_NAME
    ensures name.Some? ==> |r| == if |name.value| <= NAME_LENGTH then |name.value| else NAME_LENGTH
    ensures name.Some? ==> r == name.value[..|r|]
  {
    var full := if name.Some? then name.value else DEFAULT_NAME;
    if |full| <= NAME_LENGTH then full else full[..NAME_LENGTH]
  }

  // ---- scene_set_state ----

  /** The callback scene_set_state fires on entering `now` from `was` (145-173). */
  function StateEvents(was: SceneState, now: SceneState, cb: Callbacks): (e: seq<SceneEvent>)
    ensures |e| <= 1
    ensures LoadCalled in e <==> now == Loading && cb.onLoad
    ensures ActivateCalled in e <==> now == Active && was != Paused && cb.onActivate
    ensures DeactivateCalled in e <==> now == Paused && cb.onDeactivate
    ensures UnloadCalled in e <==> now == Unloading && cb.onUnload
    ensures forall x :: x in e ==> !x.BatchUpdated?
  {
    match now
    case Loading => if cb.onLoad then [LoadCalled] else []
    case Active => if was != Paused && cb.onActivate then [ActivateCalled] else []
    case Paused => if cb.onDeactivate then [DeactivateCalled] else []
    case Unloading => if cb.onUnload then [UnloadCalled] else []
    case Inactive => []
  }

  // ---- The object lists ----

  /** Every listed handle names an object, as the dereferences of the scene require. */
  ghost predicate Listed(objs: Objects, hs: seq<Handle>)
  {
    forall k :: k in hs ==> k in objs
  }

  /** The search-and-shift loops of scene_remove_game_object (251-261 and 268-276). */
  method DeleteFirst(s: seq<Handle>, x: Handle) returns (r: seq<Handle>, found: bool)
    ensures found <==> x in s
    ensures r == GameObjects.RemoveFirst(s, x)
  {
    var i := 0;
    while i < |s|
      invariant i <= |s| && x !in s[..i]
    {
      if s[i] == x {
        GameObjects.RemoveFirstAt(s, x, i);
        r := GameObjects.ShiftOut(s, i);
        return r, true;
      }
      assert s[..i + 1] == s[..i] + [s[i]];
      i := i + 1;
    }
    assert s[..i] == s;
    return s, false;
  }

  /** Dropping the first occurrence takes exactly one copy of `x` out of the multiset. */
  lemma {:induction false} RemoveFirstCount(s: seq<Handle>, x: Handle)
    ensures multiset(GameObjects.RemoveFirst(s, x)) == multiset(s) - multiset{x}
  {
    if s != [] {
      assert s == [s[0]] + s[1..];
      assert multiset(s) == multiset{s[0]} + multiset(s[1..]);
      if s[0] != x {
        var rest := GameObjects.RemoveFirst(s[1..], x);
        RemoveFirstCount(s[1..], x);
        assert GameObjects.RemoveFirst(s, x) == [s[0]] + rest;
        assert multiset([s[0]] + rest) == multiset{s[0]} + multiset(rest);
      }
    }
  }

  /** Every root is a listed object, counting copies. */
  ghost predicate Within(roots: seq<Handle>, all: seq<Handle>)
  {
    multiset(roots) <= multiset(all)
  }

  /**
   * Every root stays a listed object, counting copies: appending to both lists (or to the
   * object list alone, once the roots are full or the object has a parent) keeps it.
   */
  lemma AddKeepsRoots(roots: seq<Handle>, all: seq<Handle>, h: Handle, rootAdded: bool)
    requires Within(roots, all)
    ensures Within(if rootAdded then roots + [h] else roots, all + [h])
  {
  }

  /** Removing one copy of `x` from both lists keeps the roots a sub-multiset of the objects. */
  lemma RemoveBoth(roots: seq<Handle>, all: seq<Handle>, x: Handle)
    requires Within(roots, all) && x in all
    ensures Within(GameObjects.RemoveFirst(roots, x), GameObjects.RemoveFirst(all, x))
  {
    RemoveFirstCount(roots, x);
    RemoveFirstCount(all, x);
  }

  /** Index of the first listed object with id `id`, or the length (294-298). */
  function IdIndex(objs: Objects, hs: seq<Handle>, id: u32): (i: nat)
    requires Listed(objs, hs)
    ensures i <= |hs|
    ensures i < |hs| ==> objs[hs[i]].id == id
    ensures forall k :: 0 <= k < i ==> objs[hs[k]].id != id
  {
    if hs == [] then 0
    else if objs[hs[0]].id == id then 0
    else 1 + IdIndex(objs, hs[1..], id)
  }

  // ---- The batch arrays ----

  /** The first `cap` entries of `s`: what appending stops at once the array is full. */
  function Capped(s: seq<Component>, cap: nat): (r: seq<Component>)
    ensures |r| == if |s| <= cap then |s| else cap
    ensures |r| <= cap && r == s[..|r|]
  {
    if |s| <= cap then s else s[..cap]
  }

  /** One more append against the capacity check keeps the array the capped list. */
  lemma CappedSnoc(s: seq<Component>, c: Component, cap: nat)
    ensures Capped(s + [c], cap) == if |Capped(s, cap)| < cap then Capped(s, cap) + [c] else Capped(s, cap)
  {
    if |s| >= cap {
      assert (s + [c])[..cap] == s[..cap];
    }
  }

  /** Capping twice is capping once. */
  lemma CappedTwice(a: seq<Component>, b: seq<Component>, cap: nat)
    ensures Capped(Capped(a, cap) + b, cap) == Capped(a + b, cap)
  {
    if |a| > cap {
      assert (a[..cap] + b)[..cap] == (a + b)[..cap];
    } else if |a + b| > cap {
      assert (a + b)[..cap] == (Capped(a, cap) + b)[..cap];
    }
  }

  /** Of the first `n` components, those of type `t` other than `skip`, in order (223-234, 539-550). */
  function Kind(cs: seq<Component>, skip: Component?, t: ComponentType, n: nat): (r: seq<Component>)
    requires n <= |cs|
    reads cs
    ensures |r| <= n
  {
    if n == 0 then []
    else
      var c := cs[n - 1];
      Kind(cs, skip, t, n - 1) + (if c != skip && c.componentType == t then [c] else [])
  }

  /** Leaving out `skip` makes no difference when it does not have type `t`. */
  lemma {:induction false} KindSkip(cs: seq<Component>, skip: Component?, t: ComponentType, n: nat)
    requires n <= |cs| && (skip == null || skip.componentType != t)
    ensures Kind(cs, skip, t, n) == Kind(cs, null, t, n)
  {
    if n > 0 {
      KindSkip(cs, skip, t, n - 1);
    }
  }

  /** The components of the listed objects. */
  ghost function Parts(objs: Objects, hs: seq<Handle>): set<Component>
  {
    set k, c | k in hs && k in objs && c in objs[k].components :: c
  }

  /** The transforms of the first `n` listed objects, one per object that has one (533-536). */
  function Transforms(objs: Objects, hs: seq<Handle>, n: nat): (r: seq<Component>)
    requires n <= |hs| && Listed(objs, hs)
    ensures |r| <= n
  {
    if n == 0 then []
    else
      var o := objs[hs[n - 1]];
      Transforms(objs, hs, n - 1) + (if o.transform != null then [o.transform] else [])
  }

  /** The components of type `t` of the first `n` listed objects, object by object. */
  ghost function AllKind(objs: Objects, hs: seq<Handle>, t: ComponentType, n: nat): seq<Component>
    requires n <= |hs| && Listed(objs, hs)
    reads Parts(objs, hs)
  {
    if n == 0 then []
    else
      var cs := objs[hs[n - 1]].components;
      assert forall c | c in cs :: c in Parts(objs, hs) by {
        assert hs[n - 1] in hs;
      }
      AllKind(objs, hs, t, n - 1) + Kind(cs, null, t, |cs|)
  }

  /** Only the first `n` objects count, so listing more objects behind them changes nothing. */
  lemma {:induction false} AllKindPrefix(objs: Objects, hs: seq<Handle>, more: seq<Handle>, t: ComponentType, n: nat)
    requires n <= |hs| && Listed(objs, hs + more)
    ensures Listed(objs, hs) && AllKind(objs, hs + more, t, n) == AllKind(objs, hs, t, n)
  {
    assert forall k :: 0 <= k < |hs| ==> (hs + more)[k] == hs[k];
    if n > 0 {
      AllKindPrefix(objs, hs, more, t, n - 1);
    }
  }

  /** The same for the transforms. */
  lemma {:induction false} TransformsPrefix(objs: Objects, hs: seq<Handle>, more: seq<Handle>, n: nat)
    requires n <= |hs| && Listed(objs, hs + more)
    ensures Listed(objs, hs) && Transforms(objs, hs + more, n) == Transforms(objs, hs, n)
  {
    assert forall k :: 0 <= k < |hs| ==> (hs + more)[k] == hs[k];
    if n > 0 {
      TransformsPrefix(objs, hs, more, n - 1);
    }
  }

  /**
   * What scene_add_game_object appends is what a rebuild over the longer list computes, as long
   * as the object's transform is not itself of the batched type (add skips it, rebuild does not).
   */
  lemma AddThenRebuild(objs: Objects, hs: seq<Handle>, h: Handle, t: ComponentType, cap: nat)
    requires Listed(objs, hs + [h])
    requires objs[h].transform == null || objs[h].transform.componentType != t
    ensures Listed(objs, hs)
    ensures var cs := objs[h].components;
      Capped(Capped(AllKind(objs, hs, t, |hs|), cap) + Kind(cs, objs[h].transform, t, |cs|), cap) ==
      Capped(AllKind(objs, hs + [h], t, |hs| + 1), cap)
    ensures Transforms(objs, hs, |hs|) + (if objs[h].transform != null then [objs[h].transform] else []) ==
      Transforms(objs, hs + [h], |hs| + 1)
  {
    var cs := objs[h].components;
    AllKindPrefix(objs, hs, [h], t, |hs|);
    TransformsPrefix(objs, hs, [h], |hs|);
    KindSkip(cs, objs[h].transform, t, |cs|);
    CappedTwice(AllKind(objs, hs, t, |hs|), Kind(cs, null, t, |cs|), cap);
    assert (hs + [h])[|hs|] == h;
  }

  /** `arr` is the capped list of the components of type `t` among the first `j`, after `base`. */
  predicate Filled(arr: seq<Component>, base: seq<Component>, cs: seq<Component>, skip: Component?, t: ComponentType, j: nat, cap: nat)
    requires j <= |cs|
    reads cs
  {
    arr == Capped(base + Kind(cs, skip, t, j), cap)
  }

  /** The effect of one component on a capped array. */
  lemma FillStep(arr: seq<Component>, base: seq<Component>, cs: seq<Component>, skip: Component?, t: ComponentType, j: nat, next: nat, cap: nat)
    requires j < |cs| && next == j + 1 && Filled(arr, base, cs, skip, t, j, cap)
    ensures cs[j] != skip && cs[j].componentType == t ==>
      Filled(if |arr| < cap then arr + [cs[j]] else arr, base, cs, skip, t, next, cap)
    ensures !(cs[j] != skip && cs[j].componentType == t) ==> Filled(arr, base, cs, skip, t, next, cap)
  {
    var k := Kind(cs, skip, t, j);
    if cs[j] != skip && cs[j].componentType == t {
      assert base + Kind(cs, skip, t, j + 1) == (base + k) + [cs[j]];
      CappedSnoc(base + k, cs[j], cap);
    } else {
      assert base + Kind(cs, skip, t, j + 1) == base + k;
    }
  }

  /**
   * The component loop shared by scene_add_game_object (which skips the transform) and
   * scene_rebuild_component_arrays (which passes NULL): sprites and collisions are appended
   * while their arrays, of length `cap`, have room (223-234, 539-550).
   */
  method Collect(s0: seq<Component>, c0: seq<Component>, cs: seq<Component>, skip: Component?, cap: nat)
    returns (sprites: seq<Component>, collisions: seq<Component>)
    requires |s0| <= cap && |c0| <= cap
    ensures sprites == Capped(s0 + Kind(cs, skip, SPRITE, |cs|), cap)
    ensures collisions == Capped(c0 + Kind(cs, skip, COLLISION, |cs|), cap)
  {
    sprites, collisions := s0, c0;
    var j := 0;
    while j < |cs|
      invariant j <= |cs|
      invariant Filled(sprites, s0, cs, skip, SPRITE, j, cap)
      invariant Filled(collisions, c0, cs, skip, COLLISION, j, cap)
    {
      var c := cs[j];
      var next := j + 1;
      assert SPRITE != COLLISION;
      FillStep(sprites, s0, cs, skip, SPRITE, j, next, cap);
      FillStep(collisions, c0, cs, skip, COLLISION, j, next, cap);
      if c != skip && c.componentType == SPRITE {
        if |sprites| < cap {
          sprites := sprites + [c];
        }
      } else if c != skip && c.componentType == COLLISION {
        if |collisions| < cap {
          collisions := collisions + [c];
        }
      }
      j := next;
    }
  }

  /** The rebuild's transform list after one more object. */
  lemma TransformsNext(objs: Objects, hs: seq<Handle>, i: nat, next: nat)
    requires Listed(objs, hs) && i < |hs| && next == i + 1
    ensures Transforms(objs, hs, next) ==
      Transforms(objs, hs, i) + (var o := objs[hs[i]]; if o.transform != null then [o.transform] else [])
  {
  }

  /** The rebuild's capped list of type `t` after one more object. */
  lemma AllKindNext(objs: Objects, hs: seq<Handle>, t: ComponentType, i: nat, next: nat, cap: nat)
    requires Listed(objs, hs) && i < |hs| && next == i + 1
    ensures var cs := objs[hs[i]].components;
      Capped(AllKind(objs, hs, t, next), cap) == Capped(Capped(AllKind(objs, hs, t, i), cap) + Kind(cs, null, t, |cs|), cap)
  {
    var cs := objs[hs[i]].components;
    CappedTwice(AllKind(objs, hs, t, i), Kind(cs, null, t, |cs|), cap);
  }

  /** The three arrays the rebuild computes from the first `i` objects. */
  ghost predicate Rebuilt(objs: Objects, hs: seq<Handle>, i: nat, cap: nat,
                          ts: seq<Component>, ss: seq<Component>, cc: seq<Component>)
    requires Listed(objs, hs) && i <= |hs|
    reads Parts(objs, hs)
  {
    ts == Transforms(objs, hs, i) &&
    ss == Capped(AllKind(objs, hs, SPRITE, i), cap) &&
    cc == Capped(AllKind(objs, hs, COLLISION, i), cap)
  }

  /** The loop of scene_rebuild_component_arrays over the objects, on fresh arrays of length `cap`. */
  method Rebuild(objs: Objects, hs: seq<Handle>, cap: nat)
    returns (ts: seq<Component>, ss: seq<Component>, cc: seq<Component>)
    requires Listed(objs, hs)
    ensures |ts| <= |hs| && |ss| <= cap && |cc| <= cap
    ensures Rebuilt(objs, hs, |hs|, cap, ts, ss, cc)
  {
    ts, ss, cc := [], [], [];
    var i := 0;
    while i < |hs|
      invariant i <= |hs| && |ss| <= cap && |cc| <= cap
      invariant Rebuilt(objs, hs, i, cap, ts, ss, cc)
    {
      var next := i + 1;
      ts, ss, cc := RebuildStep(objs, hs, i, next, cap, ts, ss, cc);
      i := next;
    }
    assert i == |hs|;
  }

  /** One object of the rebuild: its transform, then its sprites and collisions (533-550). */
  method RebuildStep(objs: Objects, hs: seq<Handle>, i: nat, next: nat, cap: nat,
                     ts: seq<Component>, ss: seq<Component>, cc: seq<Component>)
    returns (ts': seq<Component>, ss': seq<Component>, cc': seq<Component>)
    requires Listed(objs, hs) && i < |hs| && next == i + 1 && |ss| <= cap && |cc| <= cap
    requires Rebuilt(objs, hs, i, cap, ts, ss, cc)
    ensures |ss'| <= cap && |cc'| <= cap
    ensures Rebuilt(objs, hs, next, cap, ts', ss', cc')
  {
    assert forall c | c in Parts(objs, hs) :: allocated(c);
    var o := objs[hs[i]];
    ts' := ts;
    if o.transform != null {
      ts' := ts' + [o.transform];
    }
    var cs := o.components;
    ss', cc' := Collect(ss, cc, cs, null, cap);
    TransformsNext(objs, hs, i, next);
    AllKindNext(objs, hs, SPRITE, i, next, cap);
    AllKindNext(objs, hs, COLLISION, i, next, cap);
  }

  // ---- scene_update ----

  /** The batch scene_update hands to a system of type `t`: its length, 0 for other types (385-400). */
  function BatchSize(t: ComponentType, b: Counts): nat
  {
    if t == TRANSFORM then b.transforms
    else if t == SPRITE then b.sprites
    else if t == COLLISION then b.collisions
    else 0
  }

  /** A system whose updateBatch runs in some pass: enabled, with a function, a batch and priority below 10. */
  predicate Runs(s: ComponentSystem, b: Counts)
  {
    s.enabled && (s.priority as nat) < PRIORITY_LEVELS && s.updateBatch != 0 && BatchSize(s.componentType, b) > 0
  }

  /** The call system `s` receives in pass `p`, if any (379-404). */
  function Call(s: ComponentSystem, p: nat, b: Counts): seq<SceneEvent>
  {
    var count := BatchSize(s.componentType, b);
    if s.enabled && s.priority as nat == p && s.updateBatch != 0 && count > 0
    then [BatchUpdated(p, s.updateBatch, s.componentType, count)]
    else []
  }

  /** The calls of pass `p` over the first `n` systems, in table order. */
  function Pass(systems: seq<ComponentSystem>, p: nat, n: nat, b: Counts): seq<SceneEvent>
    requires n <= |systems|
  {
    if n == 0 then [] else Pass(systems, p, n - 1, b) + Call(systems[n - 1], p, b)
  }

  /** The calls of the passes below `p`, lowest priority first. */
  function Passes(systems: seq<ComponentSystem>, p: nat, b: Counts): seq<SceneEvent>
  {
    if p == 0 then [] else Passes(systems, p - 1, b) + Pass(systems, p - 1, |systems|, b)
  }

  /** System `s` receives call `e` in pass `p`. */
  predicate CallsIn(s: ComponentSystem, b: Counts, p: nat, e: SceneEvent)
  {
    s.enabled && s.priority as nat == p && s.updateBatch != 0 && BatchSize(s.componentType, b) > 0 &&
    e == BatchUpdated(p, s.updateBatch, s.componentType, BatchSize(s.componentType, b))
  }

  /** The calls of one pass are those of the systems with that priority that have something to do. */
  lemma {:induction false} PassMembers(systems: seq<ComponentSystem>, p: nat, n: nat, b: Counts, e: SceneEvent)
    requires n <= |systems|
    ensures e in Pass(systems, p, n, b) <==> exists i :: 0 <= i < n && CallsIn(systems[i], b, p, e)
  {
    if n > 0 {
      PassMembers(systems, p, n - 1, b, e);
      var c := Call(systems[n - 1], p, b);
      assert e in Pass(systems, p, n, b) <==> e in Pass(systems, p, n - 1, b) || e in c;
      assert e in c <==> CallsIn(systems[n - 1], b, p, e);
    }
  }

  /** System `s` is running with a priority below `p`, and `e` is the call it receives. */
  predicate Makes(s: ComponentSystem, b: Counts, p: nat, e: SceneEvent)
  {
    Runs(s, b) && (s.priority as nat) < p &&
    e == BatchUpdated(s.priority as nat, s.updateBatch, s.componentType, BatchSize(s.componentType, b))
  }

  /** A system calls in the passes below `p + 1` when it calls below `p` or in pass `p`. */
  lemma MakesStep(s: ComponentSystem, b: Counts, p: nat, e: SceneEvent)
    requires p < PRIORITY_LEVELS
    ensures Makes(s, b, p + 1, e) <==> Makes(s, b, p, e) || CallsIn(s, b, p, e)
  {
  }

  /**
   * scene_update calls exactly the running systems: each running system's updateBatch, once per
   * system, in the pass of its priority, with the length of its batch.
   */
  lemma {:induction false} PassesMembers(systems: seq<ComponentSystem>, p: nat, b: Counts, e: SceneEvent)
    requires p <= PRIORITY_LEVELS
    ensures e in Passes(systems, p, b) <==> exists i :: 0 <= i < |systems| && Makes(systems[i], b, p, e)
  {
    if e in Passes(systems, p, b) {
      PassesSound(systems, p, b, e);
    }
    forall i | 0 <= i < |systems| && Makes(systems[i], b, p, e)
      ensures e in Passes(systems, p, b)
    {
      PassesComplete(systems, p, b, i, e);
    }
  }

  /** Every call of the passes below `p` comes from a system running below `p`. */
  lemma {:induction false} PassesSound(systems: seq<ComponentSystem>, p: nat, b: Counts, e: SceneEvent)
    requires p <= PRIORITY_LEVELS && e in Passes(systems, p, b)
    ensures exists i :: 0 <= i < |systems| && Makes(systems[i], b, p, e)
  {
    assert p > 0;
    var front, back := Passes(systems, p - 1, b), Pass(systems, p - 1, |systems|, b);
    assert Passes(systems, p, b) == front + back;
    if e in front {
      PassesSound(systems, p - 1, b, e);
      var i :| 0 <= i < |systems| && Makes(systems[i], b, p - 1, e);
      MakesStep(systems[i], b, p - 1, e);
    } else {
      PassMembers(systems, p - 1, |systems|, b, e);
      var i :| 0 <= i < |systems| && CallsIn(systems[i], b, p - 1, e);
      MakesStep(systems[i], b, p - 1, e);
    }
  }

  /** Every system running below `p` gets its call in the passes below `p`. */
  lemma {:induction false} PassesComplete(systems: seq<ComponentSystem>, p: nat, b: Counts, i: nat, e: SceneEvent)
    requires p <= PRIORITY_LEVELS && i < |systems| && Makes(systems[i], b, p, e)
    ensures e in Passes(systems, p, b)
  {
    MakesStep(systems[i], b, p - 1, e);
    assert Passes(systems, p, b) == Passes(systems, p - 1, b) + Pass(systems, p - 1, |systems|, b);
    if Makes(systems[i], b, p - 1, e) {
      PassesComplete(systems, p - 1, b, i, e);
    } else {
      assert CallsIn(systems[i], b, p - 1, e);
      PassMembers(systems, p - 1, |systems|, b, e);
    }
  }

  /** Every call is made in the pass of a priority below `p`. */
  lemma {:induction false} PassesBelow(systems: seq<ComponentSystem>, p: nat, b: Counts)
    ensures forall e :: e in Passes(systems, p, b) ==> e.BatchUpdated? && e.pass < p
  {
    if p > 0 {
      var front, back := Passes(systems, p - 1, b), Pass(systems, p - 1, |systems|, b);
      assert Passes(systems, p, b) == front + back;
      PassesBelow(systems, p - 1, b);
      PassShape(systems, p - 1, |systems|, b);
      forall e: SceneEvent | e in front + back
        ensures e.BatchUpdated? && e.pass < p
      {
        if e in front {
          assert e.pass < p - 1;
        }
      }
    }
  }

  /** Every call of a pass is an update call made in that pass. */
  lemma {:induction false} PassShape(systems: seq<ComponentSystem>, p: nat, n: nat, b: Counts)
    requires n <= |systems|
    ensures forall e :: e in Pass(systems, p, n, b) ==> e.BatchUpdated? && e.pass == p
  {
    if n > 0 {
      PassShape(systems, p, n - 1, b);
    }
  }

  /** Update calls only, in non-decreasing pass order. */
  ghost predicate InPassOrder(es: seq<SceneEvent>)
  {
    forall i, j :: 0 <= i < j < |es| ==> es[i].BatchUpdated? && es[j].BatchUpdated? && es[i].pass <= es[j].pass
  }

  /** Calls of earlier passes followed by calls of pass `q` stay in pass order. */
  lemma OrderedJoin(front: seq<SceneEvent>, back: seq<SceneEvent>, q: nat)
    requires InPassOrder(front)
    requires forall e :: e in front ==> e.BatchUpdated? && e.pass < q
    requires forall e :: e in back ==> e.BatchUpdated? && e.pass == q
    ensures InPassOrder(front + back)
  {
    var es := front + back;
    forall i, j | 0 <= i < j < |es|
      ensures es[i].BatchUpdated? && es[j].BatchUpdated? && es[i].pass <= es[j].pass
    {
      if j < |front| {
        assert es[i] == front[i] && es[j] == front[j];
      } else if i < |front| {
        assert es[i] == front[i] && es[i] in front;
        assert es[j] == back[j - |front|] && es[j] in back;
      } else {
        assert es[i] == back[i - |front|] && es[i] in back;
        assert es[j] == back[j - |front|] && es[j] in back;
      }
    }
  }

  /** The calls come in priority order: lower numbers update first. */
  lemma {:induction false} PassesOrdered(systems: seq<ComponentSystem>, p: nat, b: Counts)
    ensures InPassOrder(Passes(systems, p, b))
  {
    if p > 0 {
      var front, back := Passes(systems, p - 1, b), Pass(systems, p - 1, |systems|, b);
      assert Passes(systems, p, b) == front + back;
      PassesOrdered(systems, p - 1, b);
      PassesBelow(systems, p - 1, b);
      PassShape(systems, p - 1, |systems|, b);
      OrderedJoin(front, back, p - 1);
    }
  }

  // ---- Systems ----

  /** Index of the first system of type `t`, or the length (322-327, 350-355). */
  function SystemIndex(systems: seq<ComponentSystem>, t: ComponentType): (i: nat)
    ensures i <= |systems|
    ensures i < |systems| ==> systems[i].componentType == t
    ensures forall k :: 0 <= k < i ==> systems[k].componentType != t
  {
    if systems == [] then 0
    else if systems[0].componentType == t then 0
    else 1 + SystemIndex(systems[1..], t)
  }

  /** The table after scene_register_component_system stores `sys` for its type (329-339). */
  function Registered(systems: seq<ComponentSystem>, sys: ComponentSystem): seq<ComponentSystem>
  {
    var i := SystemIndex(systems, sys.componentType);
    if i < |systems| then systems[i := sys] else systems + [sys]
  }

  /** Registering finds the type at the same place afterwards, enabled, and adds an entry only for a new type. */
  lemma RegisteredFinds(systems: seq<ComponentSystem>, sys: ComponentSystem)
    ensures var after := Registered(systems, sys); var i := SystemIndex(systems, sys.componentType);
      SystemIndex(after, sys.componentType) == i && after[i] == sys &&
      |after| == if i < |systems| then |systems| else |systems| + 1
    ensures var after := Registered(systems, sys);
      forall t :: t != sys.componentType && SystemIndex(systems, t) < |systems| ==> SystemIndex(after, t) == SystemIndex(systems, t)
  {
    var after := Registered(systems, sys);
    var i := SystemIndex(systems, sys.componentType);
    assert after[i] == sys;
    forall t | t != sys.componentType && SystemIndex(systems, t) < |systems|
      ensures SystemIndex(after, t) == SystemIndex(systems, t)
    {
      var m := SystemIndex(systems, t);
      assert after[m] == systems[m];
    }
  }

  /** The single bit 1 << k. */
  function Bit(k: nat): ComponentType
    requires k < 32
  {
    1 << k
  }

  /** The eight basic types hold the first eight bits. */
  lemma BasicBits()
    ensures Bit(0) == TRANSFORM && Bit(1) == SPRITE && Bit(2) == COLLISION && Bit(3) == SCRIPT
    ensures Bit(4) == AUDIO && Bit(5) == ANIMATION && Bit(6) == PARTICLES && Bit(7) == UI
  {
  }

  /**
   * scene_get_component_pool: the pool slot of a type, found by trying each bit; only the first
   * eight slots have pools, so any other type gets none (472-482).
   */
  method ComponentPoolSlot(t: ComponentType) returns (slot: Option<nat>)
    ensures slot.Some? ==> slot.value < BASIC_POOLS && Bit(slot.value) == t
    ensures slot.None? ==> forall k :: 0 <= k < BASIC_POOLS ==> Bit(k) != t
  {
    var i := 0;
    while i < 32
      invariant i <= 32
      invariant forall k :: 0 <= k < i ==> Bit(k) != t
    {
      if Bit(i) == t {
        return if i < BASIC_POOLS then Some(i) else None;
      }
      i := i + 1;
    }
    return None;
  }

  // ---- The scene ----

  class Scene {
    const id: u32
    const name: string
    /** gameObjectCapacity: the length of the object array and of each batch array. */
    const capacity: u32
    /** rootObjectCapacity */
    const rootCapacity: u32
    var state: SceneState
    var callbacks: Callbacks
    /** gameObjects[..gameObjectCount] */
    var gameObjects: seq<Handle>
    /** rootObjects[..rootObjectCount] */
    var rootObjects: seq<Handle>
    var transforms: seq<Component>
    var sprites: seq<Component>
    var collisions: seq<Component>
    var activeObjectCount: u32
    /** systems[..systemCount] */
    var systems: seq<ComponentSystem>
    var frameCount: u32
    ghost var events: seq<SceneEvent>

    /**
     * The counts stay within their arrays: the object list within the capacity, the root list
     * within its own; the transform array, which add fills
     * without a check, has at most one entry per object; the sprite and collision arrays stay
     * within the capacity and the table holds at most 32 systems.
     */
    ghost predicate Valid()
      reads this`gameObjects, this`rootObjects, this`transforms, this`sprites, this`collisions, this`systems
    {
      Lists() && TransformsFit() && Batches() && |systems| <= MAX_SYSTEMS
    }

    ghost predicate Lists()
      reads this`gameObjects, this`rootObjects
    {
      0 < capacity && rootCapacity == RootCapacity(capacity) &&
      |gameObjects| <= capacity as nat && 0 !in gameObjects &&
      |rootObjects| <= rootCapacity as nat &&
      Within(rootObjects, gameObjects)
    }

    ghost predicate TransformsFit()
      reads this`gameObjects, this`transforms
    {
      |transforms| <= |gameObjects|
    }

    ghost predicate Batches()
      reads this`sprites, this`collisions
    {
      |sprites| <= capacity as nat && |collisions| <= capacity as nat
    }

    /** The batch arrays hold what scene_rebuild_component_arrays computes from the listed objects. */
    ghost predicate Batched(objs: Objects)
      requires Listed(objs, gameObjects)
      reads this`gameObjects, this`transforms, this`sprites, this`collisions, Parts(objs, gameObjects)
    {
      Rebuilt(objs, gameObjects, |gameObjects|, capacity as nat, transforms, sprites, collisions)
    }

    /** The lengths scene_update reads. */
    function Sizes(): Counts
      reads this`transforms, this`sprites, this`collisions
    {
      Counts(|transforms|, |sprites|, |collisions|)
    }

    /** The bookkeeping of a scene scene_create returns, before any object is added. */
    constructor(id: u32, name: Option<string>, maxGameObjects: u32)
      requires maxGameObjects > 0
      ensures Valid()
      ensures this.id == id && this.name == SceneName(name)
      ensures capacity == maxGameObjects && rootCapacity == RootCapacity(maxGameObjects)
      ensures state == Inactive && callbacks == Callbacks(false, false, false, false)
      ensures gameObjects == [] && rootObjects == [] && transforms == [] && sprites == [] && collisions == []
      ensures activeObjectCount == 0 && systems == [] && frameCount == 0 && events == []
    {
      this.id := id;
      this.name := SceneName(name);
      capacity := maxGameObjects;
      rootCapacity := RootCapacity(maxGameObjects);
      state := Inactive;
      callbacks := Callbacks(false, false, false, false);
      gameObjects, rootObjects := [], [];
      transforms, sprites, collisions := [], [], [];
      activeObjectCount := 0;
      systems := [];
      frameCount := 0;
      events := [];
    }

    /**
     * scene_create: capacity 0 is refused; `id` is the value of g_nextSceneId (24). The
     * allocations, the object pool and the component pools are not part of this model.
     */
    static method Create(id: u32, name: Option<string>, maxGameObjects: u32) returns (s: Scene?)
      ensures s == null <==> maxGameObjects == 0
      ensures s != null ==> fresh(s) && s.Valid() && s.id == id && s.name == SceneName(name)
      ensures s != null ==> s.capacity == maxGameObjects && s.rootCapacity == RootCapacity(maxGameObjects)
      ensures s != null ==> s.state == Inactive && s.gameObjects == [] && s.rootObjects == []
      ensures s != null ==> s.transforms == [] && s.sprites == [] && s.collisions == []
      ensures s != null ==> s.activeObjectCount == 0 && s.systems == [] && s.frameCount == 0 && s.events == []
    {
      if maxGameObjects == 0 {
        return null;
      }
      s := new Scene(id, name, maxGameObjects);
    }

    /** scene_set_state: the state is always stored, and the matching callback fires. */
    method SetState(next: SceneState) returns (r: SceneResult)
      modifies this`state, this`events
      ensures r == SceneOk && state == next
      ensures events == old(events) + StateEvents(old(state), next, callbacks)
    {
      var was := state;
      state := next;
      events := events + StateEvents(was, next, callbacks);
      return SceneOk;
    }

    /**
     * scene_add_game_object for handle `h` holding `o`: NULL and a full scene are refused;
     * otherwise the object is appended, a parentless one to the roots too while they have room,
     * and its transform, sprites and collisions to the batch arrays.
     */
    method AddGameObject(h: Handle, o: GameObjects.GameObject) returns (r: SceneResult)
      requires Valid()
      modifies this`gameObjects, this`rootObjects, this`transforms, this`sprites, this`collisions, this`activeObjectCount
      ensures Valid()
      ensures r == SceneNullPointer <==> h == 0
      ensures r == ScenePoolFull <==> h != 0 && |old(gameObjects)| >= capacity as nat
      ensures r in {SceneOk, SceneNullPointer, ScenePoolFull}
      ensures r != SceneOk ==> unchanged(this)
      ensures r == SceneOk ==> Added(h, o)
    {
      if h == 0 {
        return SceneNullPointer;
      }
      if |gameObjects| >= capacity as nat {
        return ScenePoolFull;
      }
      Admit(h, o);
      return SceneOk;
    }

    /** The new state after scene_add_game_object stored `h` holding `o`. */
    twostate predicate Added(h: Handle, o: GameObjects.GameObject)
      reads this, o.components
    {
      gameObjects == old(gameObjects) + [h] &&
      rootObjects == (if o.parent == 0 && |old(rootObjects)| < rootCapacity as nat then old(rootObjects) + [h] else old(rootObjects)) &&
      transforms == old(transforms) + (if o.transform != null then [o.transform] else []) &&
      sprites == Capped(old(sprites) + Kind(o.components, o.transform, SPRITE, |o.components|), capacity as nat) &&
      collisions == Capped(old(collisions) + Kind(o.components, o.transform, COLLISION, |o.components|), capacity as nat) &&
      activeObjectCount == (if o.active then Wrap32(old(activeObjectCount) + 1) else old(activeObjectCount)) &&
      systems == old(systems) && state == old(state)
    }

    /** The writes of scene_add_game_object once the checks have passed. */
    method Admit(h: Handle, o: GameObjects.GameObject)
      requires Valid() && h != 0 && |gameObjects| < capacity as nat
      modifies this`gameObjects, this`rootObjects, this`transforms, this`sprites, this`collisions, this`activeObjectCount
      ensures Valid() && Added(h, o)
    {
      ghost var sys, st := systems, state;
      Enter(h, o);
      assert systems == sys && state == st;
      Batch(o.components, o.transform);
      assert systems == sys && state == st;
      if o.active {
        activeObjectCount := Wrap32(activeObjectCount + 1);
      }
    }

    /** The batch appends for one object's components. */
    method Batch(cs: seq<Component>, skip: Component?)
      requires Batches()
      modifies this`sprites, this`collisions
      ensures Batches()
      ensures sprites == Capped(old(sprites) + Kind(cs, skip, SPRITE, |cs|), capacity as nat)
      ensures collisions == Capped(old(collisions) + Kind(cs, skip, COLLISION, |cs|), capacity as nat)
    {
      sprites, collisions := Collect(sprites, collisions, cs, skip, capacity as nat);
    }

    /** The list appends of scene_add_game_object (203-220). */
    method Enter(h: Handle, o: GameObjects.GameObject)
      requires Lists() && TransformsFit() && h != 0 && |gameObjects| < capacity as nat
      modifies this`gameObjects, this`rootObjects, this`transforms
      ensures Lists() && TransformsFit()
      ensures gameObjects == old(gameObjects) + [h]
      ensures rootObjects == if o.parent == 0 && |old(rootObjects)| < rootCapacity as nat then old(rootObjects) + [h] else old(rootObjects)
      ensures transforms == old(transforms) + (if o.transform != null then [o.transform] else [])
    {
      var rootAdded := o.parent == 0 && |rootObjects| < rootCapacity as nat;
      AddKeepsRoots(rootObjects, gameObjects, h, rootAdded);
      gameObjects := gameObjects + [h];
      if rootAdded {
        rootObjects := rootObjects + [h];
      }
      if o.transform != null {
        transforms := transforms + [o.transform];
      }
    }

    /**
     * scene_remove_game_object: NULL and an unlisted object are refused with nothing changed;
     * otherwise the first occurrence leaves both lists, the batch arrays are rebuilt from the
     * remaining objects and the active count follows the object's flag.
     */
    method RemoveGameObject(h: Handle, objs: Objects) returns (r: SceneResult)
      requires Valid() && Listed(objs, gameObjects)
      modifies this`gameObjects, this`rootObjects, this`transforms, this`sprites, this`collisions, this`activeObjectCount
      ensures Valid()
      ensures r == SceneNullPointer <==> h == 0
      ensures r == ObjectNotFound <==> h != 0 && h !in old(gameObjects)
      ensures r in {SceneOk, SceneNullPointer, ObjectNotFound}
      ensures r != SceneOk ==> unchanged(this)
      ensures r == SceneOk ==> h in objs && Removed(h, objs)
    {
      if h == 0 {
        return SceneNullPointer;
      }
      if h !in gameObjects {
        return ObjectNotFound;
      }
      Detach(h, objs);
      return SceneOk;
    }

    /**
     * The new state after scene_remove_game_object took `h` out: one copy fewer in the object
     * list, the first copy gone from the roots, the batch arrays rebuilt from the rest.
     */
    twostate predicate Removed(h: Handle, objs: Objects)
      requires h in objs
      reads this, Parts(objs, gameObjects)
    {
      |gameObjects| == |old(gameObjects)| - 1 &&
      gameObjects == GameObjects.RemoveFirst(old(gameObjects), h) &&
      rootObjects == GameObjects.RemoveFirst(old(rootObjects), h) &&
      Listed(objs, gameObjects) && Batched(objs) &&
      activeObjectCount == (if objs[h].active then Wrap32(old(activeObjectCount) - 1) else old(activeObjectCount)) &&
      systems == old(systems) && state == old(state)
    }

    /** The writes of scene_remove_game_object once `h` was found. */
    method Detach(h: Handle, objs: Objects)
      requires Valid() && Listed(objs, gameObjects) && h in gameObjects
      modifies this`gameObjects, this`rootObjects, this`transforms, this`sprites, this`collisions, this`activeObjectCount
      ensures h in objs && Valid() && Removed(h, objs)
    {
      ghost var sys, st := systems, state;
      Unlist(h, objs[h].active);
      assert systems == sys && state == st;
      RebuildComponentArrays(objs);
      assert systems == sys && state == st;
    }

    /** The list deletions and the active count of scene_remove_game_object (249-276). */
    method Unlist(h: Handle, active: bool)
      requires Lists() && h in gameObjects
      modifies this`gameObjects, this`rootObjects, this`activeObjectCount
      ensures Lists() && |gameObjects| == |old(gameObjects)| - 1
      ensures gameObjects == GameObjects.RemoveFirst(old(gameObjects), h)
      ensures rootObjects == GameObjects.RemoveFirst(old(rootObjects), h)
      ensures activeObjectCount == if active then Wrap32(old(activeObjectCount) - 1) else old(activeObjectCount)
    {
      var remaining, _ := DeleteFirst(gameObjects, h);
      var roots, _ := DeleteFirst(rootObjects, h);
      RemoveBoth(rootObjects, gameObjects, h);
      gameObjects, rootObjects := remaining, roots;
      if active {
        activeObjectCount := Wrap32(activeObjectCount - 1);
      }
    }

    /** scene_rebuild_component_arrays: the batch arrays are refilled object by object (521-551). */
    method RebuildComponentArrays(objs: Objects)
      requires Lists() && Listed(objs, gameObjects)
      modifies this`transforms, this`sprites, this`collisions
      ensures TransformsFit() && Batches() && Batched(objs)
    {
      ghost var hs := gameObjects;
      var ts, ss, cc := Rebuild(objs, gameObjects, capacity as nat);
      label L:
      transforms, sprites, collisions := ts, ss, cc;
      assert unchanged@L(Parts(objs, hs));
      assert Rebuilt(objs, hs, |hs|, capacity as nat, ts, ss, cc);
    }

    /** scene_find_game_object_by_id: id 0 finds nothing; otherwise the first listed object with the id. */
    method FindGameObjectById(id: u32, objs: Objects) returns (h: Handle)
      requires Listed(objs, gameObjects)
      ensures id == 0 ==> h == 0
      ensures id != 0 ==> h == (var i := IdIndex(objs, gameObjects, id); if i < |gameObjects| then gameObjects[i] else 0)
    {
      if id == 0 {
        return 0;
      }
      var i := 0;
      while i < |gameObjects|
        invariant i <= |gameObjects| && forall k :: 0 <= k < i ==> objs[gameObjects[k]].id != id
      {
        if objs[gameObjects[i]].id == id {
          return gameObjects[i];
        }
        i := i + 1;
      }
      return 0;
    }

    /** The search loop shared by register and enable. */
    method FindSystem(t: ComponentType) returns (i: nat)
      ensures i == SystemIndex(systems, t)
    {
      i := 0;
      while i < |systems|
        invariant i <= |systems| && forall k :: 0 <= k < i ==> systems[k].componentType != t
      {
        if systems[i].componentType == t {
          return;
        }
        i := i + 1;
      }
    }

    /**
     * scene_register_component_system: a full table is refused, even for a type already in it;
     * otherwise the type's entry, or a new one at the end, is overwritten and enabled.
     */
    method RegisterComponentSystem(t: ComponentType, updateBatch: nat, renderBatch: nat, priority: u32)
      returns (r: SceneResult)
      requires Valid()
      modifies this`systems
      ensures Valid()
      ensures r == ScenePoolFull <==> |old(systems)| >= MAX_SYSTEMS
      ensures r in {SceneOk, ScenePoolFull}
      ensures r == ScenePoolFull ==> systems == old(systems)
      ensures r == SceneOk ==> systems == Registered(old(systems), ComponentSystem(t, updateBatch, renderBatch, true, priority))
    {
      if |systems| >= MAX_SYSTEMS {
        return ScenePoolFull;
      }
      var i := FindSystem(t);
      var sys := ComponentSystem(t, updateBatch, renderBatch, true, priority);
      if i < |systems| {
        systems := systems[i := sys];
      } else {
        systems := systems + [sys];
      }
      return SceneOk;
    }

    /** scene_enable_component_system: the first system of the type gets the flag, if there is one. */
    method EnableComponentSystem(t: ComponentType, enabled: bool) returns (r: SceneResult)
      requires Valid()
      modifies this`systems
      ensures Valid()
      ensures r == SystemNotFound <==> SystemIndex(old(systems), t) == |old(systems)|
      ensures r in {SceneOk, SystemNotFound}
      ensures r == SystemNotFound ==> systems == old(systems)
      ensures r == SceneOk ==> var i := SystemIndex(old(systems), t);
        i < |old(systems)| && systems == old(systems)[i := old(systems)[i].(enabled := enabled)]
    {
      var i := FindSystem(t);
      if i < |systems| {
        systems := systems[i := systems[i].(enabled := enabled)];
        return SceneOk;
      }
      return SystemNotFound;
    }

    /**
     * scene_update: nothing happens unless the scene is ACTIVE; then the frame counter goes up
     * by one (wrapping at 2^32) and every running system's updateBatch is called, priority by
     * priority and within a priority in table order.
     */
    method Update()
      modifies this`frameCount, this`events
      ensures state != Active ==> frameCount == old(frameCount) && events == old(events)
      ensures state == Active ==> frameCount == Wrap32(old(frameCount) + 1)
      ensures state == Active ==> events == old(events) + Passes(systems, PRIORITY_LEVELS, Sizes())
    {
      if state != Active {
        return;
      }
      frameCount := Wrap32(frameCount + 1);
      Dispatch();
    }

    /** The priority passes of scene_update (376-405). */
    method Dispatch()
      modifies this`events
      ensures events == old(events) + Passes(systems, PRIORITY_LEVELS, Sizes())
    {
      var p := 0;
      while p < PRIORITY_LEVELS
        invariant p <= PRIORITY_LEVELS && events == old(events) + Passes(systems, p, Sizes())
      {
        var next := p + 1;
        DispatchPass(p);
        assert Passes(systems, next, Sizes()) == Passes(systems, p, Sizes()) + Pass(systems, p, |systems|, Sizes());
        p := next;
      }
    }

    /** One pass: each enabled system of priority `p` with a batch function and a non-empty batch. */
    method DispatchPass(p: nat)
      modifies this`events
      ensures events == old(events) + Pass(systems, p, |systems|, Sizes())
    {
      var i := 0;
      while i < |systems|
        invariant i <= |systems| && events == old(events) + Pass(systems, p, i, Sizes())
      {
        var s := systems[i];
        var next := i + 1;
        if s.enabled && s.priority as nat == p && s.updateBatch != 0 {
          var count := 0;
          if s.componentType == TRANSFORM {
            count := |transforms|;
          } else if s.componentType == SPRITE {
            count := |sprites|;
          } else if s.componentType == COLLISION {
            count := |collisions|;
          }
          if count > 0 {
            events := events + [BatchUpdated(p, s.updateBatch, s.componentType, count)];
          }
        }
        assert Pass(systems, p, next, Sizes()) == Pass(systems, p, i, Sizes()) + Call(s, p, Sizes());
        i := next;
      }
    }
  }
}
