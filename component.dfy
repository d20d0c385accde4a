/**
 * The base component of src/core/component.c: validated initialisation, the enabled flag
 * with its transition hooks, the bit-mask type test and the type names. A vtable is modelled
 * by which hooks it provides; what a hook does is outside the model, so every hook that
 * fires is appended to the component's ghost event trace instead.
 */
module ComponentBase {
  import opened StdInt

  /** A component type is a bit mask; the basic types are single bits (component.h:12-24). */
  type ComponentType = bv32

  const NONE: ComponentType := 0
  const TRANSFORM: ComponentType := 1
  const SPRITE: ComponentType := 2
  const COLLISION: ComponentType := 4
  const SCRIPT: ComponentType := 8
  const AUDIO: ComponentType := 16
  const ANIMATION: ComponentType := 32
  const PARTICLES: ComponentType := 64
  const UI: ComponentType := 128
  const CUSTOM_BASE: ComponentType := 0x1_0000

  /** sizeof(Component): the 48-byte layout component.h:52-60 documents. */
  const COMPONENT_SIZE: u32 := 48

  datatype ComponentResult = Ok | NullPointer | InvalidType | AlreadyExists | NotFound | PoolFull | VTableNull

  /** The hooks of a ComponentVTable that the core invokes. */
  datatype Hook = InitHook | DestroyHook | UpdateHook | RenderHook | OnEnabledHook | OnDisabledHook

  /** A vtable, reduced to which of its hook pointers are non-NULL. */
  datatype VTable = VTable(init: bool, destroy: bool, update: bool, render: bool, onEnabled: bool, onDisabled: bool)

  /** The vtable pointer is non-NULL and its entry for `h` is non-NULL. */
  predicate Provides(vtable: Option<VTable>, h: Hook)
  {
    vtable.Some? &&
    match h
    case InitHook => vtable.value.init
    case DestroyHook => vtable.value.destroy
    case UpdateHook => vtable.value.update
    case RenderHook => vtable.value.render
    case OnEnabledHook => vtable.value.onEnabled
    case OnDisabledHook => vtable.value.onDisabled
  }

  /** The hooks a guarded call fires: `h` once when `guard` holds and the vtable provides it. */
  function Fire(guard: bool, vtable: Option<VTable>, h: Hook): (events: seq<Hook>)
    ensures |events| <= 1
    ensures forall e :: e in events <==> e == h && guard && Provides(vtable, h)
  {
    if guard && Provides(vtable, h) then [h] else []
  }

  /** The hooks component_set_enabled fires when the flag goes from `was` to `now`. */
  function EnableEvents(was: bool, now: bool, vtable: Option<VTable>): (events: seq<Hook>)
    ensures |events| <= 1
    ensures OnEnabledHook in events <==> !was && now && Provides(vtable, OnEnabledHook)
    ensures OnDisabledHook in events <==> was && !now && Provides(vtable, OnDisabledHook)
    ensures forall e :: e in events ==> e == OnEnabledHook || e == OnDisabledHook
    ensures was == now ==> events == []
  {
    if now && !was then Fire(true, vtable, OnEnabledHook)
    else if !now && was then Fire(true, vtable, OnDisabledHook)
    else []
  }

  /** Setting the flag to its current value, or twice to the same value, fires nothing more. */
  lemma EnableTwice(was: bool, now: bool, vtable: Option<VTable>)
    ensures EnableEvents(was, now, vtable) + EnableEvents(now, now, vtable) == EnableEvents(was, now, vtable)
  {
  }

  /** The eight basic single-bit types. */
  predicate IsBasicType(t: ComponentType)
  {
    t == TRANSFORM || t == SPRITE || t == COLLISION || t == SCRIPT ||
    t == AUDIO || t == ANIMATION || t == PARTICLES || t == UI
  }

  /** component_type_to_string. */
  function TypeName(t: ComponentType): (name: string)
    ensures name == "Unknown" <==> !IsBasicType(t)
  {
    if t == TRANSFORM then "Transform"
    else if t == SPRITE then "Sprite"
    else if t == COLLISION then "Collision"
    else if t == SCRIPT then "Script"
    else if t == AUDIO then "Audio"
    else if t == ANIMATION then "Animation"
    else if t == PARTICLES then "Particles"
    else if t == UI then "UI"
    else "Unknown"
  }

  /** The basic type a name denotes: the inverse of TypeName. */
  function TypeOfName(name: string): (t: Option<ComponentType>)
    ensures t.Some? ==> IsBasicType(t.value)
  {
    if name == "Transform" then Some(TRANSFORM)
    else if name == "Sprite" then Some(SPRITE)
    else if name == "Collision" then Some(COLLISION)
    else if name == "Script" then Some(SCRIPT)
    else if name == "Audio" then Some(AUDIO)
    else if name == "Animation" then Some(ANIMATION)
    else if name == "Particles" then Some(PARTICLES)
    else if name == "UI" then Some(UI)
    else None
  }

  /** TypeName names each basic type by a name that gives the type back, so no two share a name. */
  lemma TypeNameRoundTrip(t: ComponentType)
    ensures IsBasicType(t) ==> TypeOfName(TypeName(t)) == Some(t)
    ensures !IsBasicType(t) ==> TypeOfName(TypeName(t)) == None
  {
  }

  /** The mask test of component_is_type on a type value. */
  predicate MaskHas(mask: ComponentType, t: ComponentType)
  {
    mask & t != 0
  }

  lemma OrIsZero(x: ComponentType, y: ComponentType)
    ensures x | y == 0 <==> x == 0 && y == 0
  {
  }

  lemma AndOverOr(m: ComponentType, a: ComponentType, b: ComponentType)
    ensures m & (a | b) == (m & a) | (m & b)
  {
  }

  /** Testing against a union of types is testing against either of them. */
  lemma MaskHasUnion(mask: ComponentType, a: ComponentType, b: ComponentType)
    ensures MaskHas(mask, a | b) <==> MaskHas(mask, a) || MaskHas(mask, b)
  {
    AndOverOr(mask, a, b);
    OrIsZero(mask & a, mask & b);
  }

  /** For basic types the mask test is type equality. */
  lemma MaskHasBasic(a: ComponentType, b: ComponentType)
    requires IsBasicType(a) && IsBasicType(b)
    ensures MaskHas(a, b) <==> a == b
  {
  }

  /** The Component structure; `address` is where it lives, the pointer other code holds. */
  class Component {
    const address: u32
    var componentType: ComponentType
    var id: u32
    var vtable: Option<VTable>
    /** The owning game object's handle; 0 is NULL. */
    var gameObject: nat
    var enabled: bool
    /** The hooks invoked on this component so far, in order. */
    ghost var events: seq<Hook>

    /** The fields other than the flag and the trace hold the given values. */
    predicate Fixed(componentType: ComponentType, id: u32, vtable: Option<VTable>, gameObject: nat)
      reads this
    {
      this.componentType == componentType && this.id == id && this.vtable == vtable && this.gameObject == gameObject
    }

    /** Zeroed memory at `address`. */
    constructor(address: u32)
      ensures this.address == address
      ensures componentType == NONE && id == 0 && vtable == None && gameObject == 0 && !enabled
      ensures events == []
    {
      this.address := address;
      componentType := NONE;
      id := 0;
      vtable := None;
      gameObject := 0;
      enabled := false;
      events := [];
    }

    /**
     * component_init: every pointer argument must be non-NULL and the type not NONE; then the
     * structure is cleared and filled, enabled, with id 0 until the registry assigns one.
     */
    static method Init(c: Component?, t: ComponentType, vtable: Option<VTable>, gameObject: nat)
      returns (r: ComponentResult)
      modifies c
      ensures r == NullPointer <==> c == null || vtable.None? || gameObject == 0
      ensures r == InvalidType <==> c != null && vtable.Some? && gameObject != 0 && t == NONE
      ensures r == Ok || r == NullPointer || r == InvalidType
      ensures r != Ok && c != null ==> unchanged(c)
      ensures r == Ok ==>
        c.componentType == t && c.vtable == vtable && c.gameObject == gameObject &&
        c.enabled && c.id == 0 && c.events == old(c.events)
      ensures r == Ok ==> IsEnabled(c)
    {
      if c == null || vtable.None? || gameObject == 0 {
        return NullPointer;
      }
      if t == NONE {
        return InvalidType;
      }
      c.componentType, c.vtable, c.gameObject, c.enabled, c.id := t, vtable, gameObject, true, 0;
      return Ok;
    }

    /** component_destroy: clear the structure of a non-NULL component. */
    static method Destroy(c: Component?)
      modifies c
      ensures c != null ==>
        c.componentType == NONE && c.id == 0 && c.vtable == None && c.gameObject == 0 && !c.enabled &&
        c.events == old(c.events)
      ensures !IsEnabled(c)
    {
      if c != null {
        c.componentType, c.id, c.vtable, c.gameObject, c.enabled := NONE, 0, None, 0, false;
      }
    }

    /** component_set_enabled: store the flag, firing onEnabled or onDisabled on a change. */
    static method SetEnabled(c: Component?, enabled: bool)
      modifies c
      ensures c != null ==>
        c.enabled == enabled && c.events == old(c.events) + EnableEvents(old(c.enabled), enabled, c.vtable)
      ensures c != null ==> c.Fixed(old(c.componentType), old(c.id), old(c.vtable), old(c.gameObject))
      ensures IsEnabled(c) == (c != null && enabled)
    {
      if c == null {
        return;
      }
      var wasEnabled := c.enabled;
      c.enabled := enabled;
      if enabled && !wasEnabled {
        CallOnEnabled(c);
      } else if !enabled && wasEnabled {
        CallOnDisabled(c);
      }
    }

    /** component_is_enabled; false for NULL. */
    static function IsEnabled(c: Component?): (r: bool)
      reads c
      ensures r ==> c != null
    {
      c != null && c.enabled
    }

    /** component_is_type: the mask test; false for NULL. */
    static function IsType(c: Component?, t: ComponentType): (r: bool)
      reads c
      ensures r ==> c != null && t != NONE && c.componentType != NONE
      ensures c != null && IsBasicType(c.componentType) && IsBasicType(t) ==> (r <==> c.componentType == t)
    {
      if c == null then false
      else if IsBasicType(c.componentType) && IsBasicType(t) then
        MaskHasBasic(c.componentType, t);
        MaskHas(c.componentType, t)
      else MaskHas(c.componentType, t)
    }

    /** component_call_update: the update hook runs only on an enabled component that has one. */
    static method CallUpdate(c: Component?)
      modifies c
      ensures c != null ==> c.Fixed(old(c.componentType), old(c.id), old(c.vtable), old(c.gameObject))
      ensures c != null ==> c.enabled == old(c.enabled)
      ensures c != null ==> c.events == old(c.events) + Fire(c.enabled, c.vtable, UpdateHook)
    {
      if c != null && c.enabled && Provides(c.vtable, UpdateHook) {
        c.events := c.events + [UpdateHook];
      }
    }

    /** component_call_render: as CallUpdate, for the render hook. */
    static method CallRender(c: Component?)
      modifies c
      ensures c != null ==> c.Fixed(old(c.componentType), old(c.id), old(c.vtable), old(c.gameObject))
      ensures c != null ==> c.enabled == old(c.enabled)
      ensures c != null ==> c.events == old(c.events) + Fire(c.enabled, c.vtable, RenderHook)
    {
      if c != null && c.enabled && Provides(c.vtable, RenderHook) {
        c.events := c.events + [RenderHook];
      }
    }

    /** component_call_on_enabled: the hook runs whatever the flag says. */
    static method CallOnEnabled(c: Component?)
      modifies c
      ensures c != null ==> c.Fixed(old(c.componentType), old(c.id), old(c.vtable), old(c.gameObject))
      ensures c != null ==> c.enabled == old(c.enabled)
      ensures c != null ==> c.events == old(c.events) + Fire(true, c.vtable, OnEnabledHook)
    {
      if c != null && Provides(c.vtable, OnEnabledHook) {
        c.events := c.events + [OnEnabledHook];
      }
    }

    /** component_call_on_disabled. */
    static method CallOnDisabled(c: Component?)
      modifies c
      ensures c != null ==> c.Fixed(old(c.componentType), old(c.id), old(c.vtable), old(c.gameObject))
      ensures c != null ==> c.enabled == old(c.enabled)
      ensures c != null ==> c.events == old(c.events) + Fire(true, c.vtable, OnDisabledHook)
    {
      if c != null && Provides(c.vtable, OnDisabledHook) {
        c.events := c.events + [OnDisabledHook];
      }
    }
  }
}
