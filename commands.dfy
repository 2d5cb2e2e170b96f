/** Stock optional-value datatype shared by the modules of this model. */
module Wrappers {
  datatype Option<T> = None | Some(value: T)
}

/**
  The command refresh/execute protocol: UiFunction (a command with an explicit
  receiver), NamedFunction (a command whose receiver is searched by slot name),
  the ENABLED_IF / CHECKED_IF guards receivers put at the head of their slots,
  and the two statics every command shares (the preparing flag and the current
  sender).

  The Qt meta-object system is abstracted by a World: the focus widget, each
  object's children, and for each object the slots it offers together with the
  guard each slot evaluates to at the moment it is called. The body of a slot is
  observed through Runtime.bodies, the record of slot bodies that actually ran.
*/
module Commands {
  import opened Wrappers

  type ObjId = nat

  /** What the guard at the head of a slot evaluates to when the slot is called. */
  datatype Guard =
    | EnabledIf(cond: bool)                      // ENABLED_IF( cond )
    | CheckedIf(enabled: bool, checked: bool)    // CHECKED_IF( enabled, checked )
    | Unguarded                                  // a slot without either macro

  /** The condition a guard lets the body through with, outside a preparing pass. */
  function Passes(g: Guard): bool
  {
    match g
    case EnabledIf(c) => c
    case CheckedIf(e, _) => e
    case Unguarded => true
  }

  /** The enabled state a guard reports while preparing; a slot without a guard reports nothing. */
  function ReportEnabled(g: Guard, was: bool): bool
  {
    match g
    case EnabledIf(c) => c
    case CheckedIf(e, _) => e
    case Unguarded => was
  }

  /** CHECKED_IF sets the checked state only when it reports the command enabled. */
  function ReportChecked(g: Guard, was: bool): bool
  {
    if g.CheckedIf? && g.enabled then g.checked else was
  }

  /** Whether a slot body runs: while a sender is preparing only an unguarded body runs,
      otherwise exactly when the guard passes. */
  function BodyRuns(g: Guard, gated: bool): bool
  {
    if gated then g.Unguarded? else Passes(g)
  }

  datatype World = World(
    focus: Option<ObjId>,
    children: map<ObjId, seq<ObjId>>,
    slots: map<ObjId, map<string, Guard>>)

  predicate HasSlot(w: World, o: ObjId, s: string)
  {
    o in w.slots && s in w.slots[o]
  }

  function ChildrenOf(w: World, o: ObjId): seq<ObjId>
  {
    if o in w.children then w.children[o] else []
  }

  /** One slot of one receiver. */
  datatype Effect = Effect(receiver: ObjId, slot: string)

  function GuardAt(w: World, e: Effect): Guard
    requires HasSlot(w, e.receiver, e.slot)
  {
    w.slots[e.receiver][e.slot]
  }

  /** An explicit receiver and slot, as connected to the handle signal. */
  datatype Binding = Binding(receiver: ObjId, member: string)

  /** UiFunction with an optional explicit receiver, or NamedFunction with its normalised slot. */
  datatype Kind = Plain(binding: Option<Binding>) | Named(slot: string)

  datatype ShortcutContext =
    WidgetShortcut | WidgetWithChildrenShortcut | WindowShortcut | ApplicationShortcut

  // ---------------------------------------------------------------------------
  // Slot-name normalisation (NamedFunction constructor)
  // ---------------------------------------------------------------------------

  predicate IsDigit(c: char)
  {
    '0' <= c <= '9'
  }

  predicate EndsWithParens(s: string)
  {
    |s| >= 2 && s[|s| - 2..] == "()"
  }

  /** The slot name with one leading digit (the code Qt's SLOT macro prepends) dropped. */
  function StripCode(s: string): (r: string)
  {
    if s != [] && IsDigit(s[0]) then s[1..] else s
  }

  /** NamedFunction's slot: one leading digit dropped, "()" appended unless already there. */
  function NormaliseSlot(s: string): (r: string)
    ensures r == [] <==> StripCode(s) == []
    ensures r != [] ==> EndsWithParens(r)
    ensures StripCode(s) <= r && |r| <= |StripCode(s)| + 2
    ensures EndsWithParens(StripCode(s)) ==> r == StripCode(s)
  {
    var core := StripCode(s);
    if core != [] && !EndsWithParens(core) then core + "()" else core
  }

  // ---------------------------------------------------------------------------
  // Receiver search (NamedFunction::prepare, default build)
  // ---------------------------------------------------------------------------

  /** Where the search looks, in order: the focus widget's children, then the focus widget. */
  function Candidates(w: World): seq<ObjId>
  {
    match w.focus
    case None => []
    case Some(f) => ChildrenOf(w, f) + [f]
  }

  /** Index of the first object offering slot s, or |cs| when none does. */
  function FirstWithSlot(cs: seq<ObjId>, w: World, s: string): (k: nat)
    ensures k <= |cs|
    ensures forall j :: 0 <= j < k ==> !HasSlot(w, cs[j], s)
    ensures k < |cs| ==> HasSlot(w, cs[k], s)
  {
    if cs == [] then 0
    else if HasSlot(w, cs[0], s) then 0
    else
      var k' := FirstWithSlot(cs[1..], w, s);
      assert forall j :: 1 <= j < k' + 1 ==> cs[j] == cs[1..][j - 1];
      k' + 1
  }

  /** The receiver the search settles on, if any. */
  function Locate(w: World, s: string): (r: Option<ObjId>)
    ensures w.focus.None? ==> r.None?
    ensures r.Some? ==> HasSlot(w, r.value, s) && r.value in Candidates(w)
    ensures r.None? ==> forall c :: c in Candidates(w) ==> !HasSlot(w, c, s)
    ensures r.Some? ==> exists k :: 0 <= k < |Candidates(w)| && Candidates(w)[k] == r.value &&
                          forall j :: 0 <= j < k ==> !HasSlot(w, Candidates(w)[j], s)
  {
    var cs := Candidates(w);
    var k := FirstWithSlot(cs, w, s);
    if k < |cs| then Some(cs[k]) else None
  }

  /** A child offering the slot wins over the focus widget itself; nothing above the focus is tried. */
  lemma LocatePrefersChildren(w: World, s: string, c: ObjId)
    requires w.focus.Some?
    requires c in ChildrenOf(w, w.focus.value) && HasSlot(w, c, s)
    ensures Locate(w, s).Some?
    ensures Locate(w, s).value in ChildrenOf(w, w.focus.value)
  {
    var kids := ChildrenOf(w, w.focus.value);
    var cs := Candidates(w);
    var k := FirstWithSlot(cs, w, s);
    var i :| 0 <= i < |kids| && kids[i] == c;
    assert cs[i] == c;
    assert k <= i;
    assert cs[k] == kids[k];
  }

  // ---------------------------------------------------------------------------
  // Which slot `handle` reaches, and what prepare/execute then do
  // ---------------------------------------------------------------------------

  /** The explicitly connected slot, when the receiver offers it. */
  function BoundSlot(b: Option<Binding>, w: World): (h: Option<Effect>)
    ensures h.Some? ==> HasSlot(w, h.value.receiver, h.value.slot)
  {
    if b.Some? && HasSlot(w, b.value.receiver, b.value.member)
    then Some(Effect(b.value.receiver, b.value.member))
    else None
  }

  /** The slot prepare() calls. */
  function PrepareHandler(k: Kind, w: World): (h: Option<Effect>)
    ensures h.Some? ==> HasSlot(w, h.value.receiver, h.value.slot)
    ensures k.Named? ==> (h.Some? <==> Locate(w, k.slot).Some?)
    ensures k.Named? && h.Some? ==> h.value == Effect(Locate(w, k.slot).value, k.slot)
  {
    match k
    case Plain(b) => BoundSlot(b, w)
    case Named(s) =>
      match Locate(w, s)
      case None => None
      case Some(o) => Some(Effect(o, s))
  }

  /** The guard of the slot prepare() calls. */
  function PreparedGuard(k: Kind, w: World): Option<Guard>
  {
    var h := PrepareHandler(k, w);
    if h.Some? then Some(GuardAt(w, h.value)) else None
  }

  /** The enabled state prepare() leaves: false unless the slot's guard reports true. */
  function PreparedEnabled(k: Kind, w: World): bool
  {
    var g := PreparedGuard(k, w);
    g.Some? && ReportEnabled(g.value, false)
  }

  /** The target a NamedFunction caches in prepare(); a plain UiFunction caches none. */
  function TargetAfterPrepare(k: Kind, w: World): Option<ObjId>
  {
    if k.Named? then Locate(w, k.slot) else None
  }

  /** Slot bodies that run during prepare(): only that of an unguarded slot. */
  function PrepareBodies(k: Kind, w: World): seq<Effect>
  {
    var h := PrepareHandler(k, w);
    if h.Some? && GuardAt(w, h.value).Unguarded? then [h.value] else []
  }

  /** The slot execute() calls: the bound slot, or the named slot on the cached target. */
  function ExecuteHandler(k: Kind, t: Option<ObjId>, w: World): (h: Option<Effect>)
    ensures h.Some? ==> HasSlot(w, h.value.receiver, h.value.slot)
  {
    match k
    case Plain(b) => BoundSlot(b, w)
    case Named(s) => if t.Some? && HasSlot(w, t.value, s) then Some(Effect(t.value, s)) else None
  }

  /** Slot bodies that run during execute(). */
  function ExecuteBodies(k: Kind, t: Option<ObjId>, w: World): (r: seq<Effect>)
    ensures |r| <= 1
    // an action body never runs while its guard's condition is false
    ensures r != [] ==> HasSlot(w, r[0].receiver, r[0].slot) && Passes(GuardAt(w, r[0]))
    // a NamedFunction runs the slot on the target prepare() cached, never on another object
    ensures k.Named? && r != [] ==> t == Some(r[0].receiver) && r[0].slot == k.slot
    ensures k.Named? && t.None? ==> r == []
  {
    var h := ExecuteHandler(k, t, w);
    if h.Some? && Passes(GuardAt(w, h.value)) then [h.value] else []
  }

  /** Slot bodies a shortcut press runs: prepare(), then execute() if that left the command enabled. */
  function ActivationBodies(k: Kind, w: World): seq<Effect>
  {
    PrepareBodies(k, w) +
      (if PreparedEnabled(k, w) then ExecuteBodies(k, TargetAfterPrepare(k, w), w) else [])
  }

  /** Executing right after prepare(), in the same state, runs a guarded slot's body exactly
      when prepare() left the command enabled. */
  lemma ExecuteAfterPrepareAgrees(k: Kind, w: World)
    requires PreparedGuard(k, w).Some? ==> !PreparedGuard(k, w).value.Unguarded?
    ensures ExecuteBodies(k, TargetAfterPrepare(k, w), w) != [] <==> PreparedEnabled(k, w)
    ensures PrepareBodies(k, w) == []
  {
    var h := PrepareHandler(k, w);
    if k.Named? && h.Some? {
      assert ExecuteHandler(k, TargetAfterPrepare(k, w), w) == h;
    }
  }

  /** A shortcut press runs the command's slot body exactly once when its guard passes now,
      and not at all otherwise, whatever enabled state the command showed before. */
  lemma ActivationRunsIffGuardPasses(k: Kind, w: World)
    ensures var h := PrepareHandler(k, w);
      ActivationBodies(k, w) == (if h.Some? && Passes(GuardAt(w, h.value)) then [h.value] else [])
  {
    var h := PrepareHandler(k, w);
    if k.Named? && h.Some? {
      assert ExecuteHandler(k, TargetAfterPrepare(k, w), w) == h;
    }
  }

  // ---------------------------------------------------------------------------
  // The shared statics and the command objects
  // ---------------------------------------------------------------------------

  /**
    The statics UiFunction::d_preparing and UiFunction::s_sender, shared by every
    command. `prepares` (the prepare() calls in order) and `bodies` (the slot bodies
    that ran) only record what happened, so that contracts can speak about it.
  */
  class Runtime {
    var preparing: bool
    var sender: UiFunction?
    var prepares: seq<UiFunction>
    var bodies: seq<Effect>

    constructor ()
      ensures !preparing && sender == null && prepares == [] && bodies == []
    {
      preparing := false;
      sender := null;
      prepares := [];
      bodies := [];
    }
  }

  class UiFunction {
    const kind: Kind
    const text: string
    const owner: ObjId
    var enabled: bool
    var checkable: bool
    var checked: bool
    var target: Option<ObjId>   // NamedFunction::d_target
    var shortcut: string        // "" is the empty key sequence
    var shortcutContext: ShortcutContext
    var icon: string

    /** UiFunction(text, parent[, receiver, member]): enabled, triggered runs execute(),
        handle is connected to the receiver's slot when one is given. */
    constructor (text: string, owner: ObjId, binding: Option<Binding>)
      ensures kind == Plain(binding) && this.text == text && this.owner == owner
      ensures enabled && !checkable && !checked && target.None?
      ensures shortcut == [] && shortcutContext == WindowShortcut && icon == []
    {
      kind := Plain(binding);
      this.text := text;
      this.owner := owner;
      enabled := true;
      checkable := false;
      checked := false;
      target := None;
      shortcut := [];
      shortcutContext := WindowShortcut;
      icon := [];
    }

    /** NamedFunction(title, slot, parent): enabled, no target, the slot name normalised. */
    constructor ForSlot(text: string, slot: string, owner: ObjId)
      ensures kind == Named(NormaliseSlot(slot)) && this.text == text && this.owner == owner
      ensures enabled && !checkable && !checked && target.None?
      ensures shortcut == [] && shortcutContext == WindowShortcut && icon == []
    {
      kind := Named(NormaliseSlot(slot));
      this.text := text;
      this.owner := owner;
      enabled := true;
      checkable := false;
      checked := false;
      target := None;
      shortcut := [];
      shortcutContext := WindowShortcut;
      icon := [];
    }

    /** hasTarget(): always for a plain UiFunction, for a NamedFunction when a target is cached. */
    predicate HasTarget()
      reads this
    {
      kind.Plain? || target.Some?
    }

    twostate predicate ReportedBy(g: Guard)
      reads this
    {
      && enabled == ReportEnabled(g, old(enabled))
      && checkable == (old(checkable) || g.CheckedIf?)
      && checked == ReportChecked(g, old(checked))
      && target == old(target)
      && shortcut == old(shortcut) && shortcutContext == old(shortcutContext) && icon == old(icon)
    }

    /** prepare(): preparing on, enabled off as the safe default, then the slot's guard
        reports the real state. A NamedFunction first drops its target and searches. */
    method Prepare(rt: Runtime, w: World)
      modifies this, rt
      ensures rt.preparing
      ensures old(rt.sender) == null || kind.Plain? || PrepareHandler(kind, w).Some? ==> rt.sender == null
      ensures PrepareHandler(kind, w).None? && kind.Named? ==> rt.sender == old(rt.sender)
      ensures rt.prepares == old(rt.prepares) + [this]
      ensures rt.bodies == old(rt.bodies) + PrepareBodies(kind, w)
      ensures enabled == PreparedEnabled(kind, w)
      ensures var g := PreparedGuard(kind, w);
        && checkable == (old(checkable) || (g.Some? && g.value.CheckedIf?))
        && checked == (if g.Some? then ReportChecked(g.value, old(checked)) else old(checked))
      ensures target == (if kind.Named? then TargetAfterPrepare(kind, w) else old(target))
      ensures kind.Named? ==> (HasTarget() <==> PrepareHandler(kind, w).Some?)
      ensures shortcut == old(shortcut) && shortcutContext == old(shortcutContext) && icon == old(icon)
    {
      rt.prepares := rt.prepares + [this];
      match kind
      case Plain(b) =>
        rt.preparing := true;
        rt.sender := this;
        enabled := false;
        var h := BoundSlot(b, w);
        if h.Some? {
          RunSlot(rt, h.value, GuardAt(w, h.value));
        }
        rt.sender := null;
      case Named(s) =>
        rt.preparing := true;
        target := None;
        enabled := false;
        if w.focus.Some? {
          var cur := w.focus.value;
          var cs := ChildrenOf(w, cur);
          assert Candidates(w) == cs + [cur];
          var i := 0;
          while i < |cs|
            invariant 0 <= i <= |cs|
            invariant forall j :: 0 <= j < i ==> !HasSlot(w, cs[j], s)
            invariant rt.preparing && rt.sender == old(rt.sender)
            invariant rt.prepares == old(rt.prepares) + [this] && rt.bodies == old(rt.bodies)
            invariant !enabled && target.None? && checkable == old(checkable) && checked == old(checked)
            invariant shortcut == old(shortcut) && shortcutContext == old(shortcutContext) && icon == old(icon)
          {
            var found := PrepareImp(rt, w, cs[i]);
            if found {
              assert (cs + [cur])[i] == cs[i];
              assert FirstWithSlot(cs + [cur], w, s) == i;
              return;
            }
            i := i + 1;
          }
          assert (cs + [cur])[|cs|] == cur;
          var found := PrepareImp(rt, w, cur);
        }
    }

    /** prepareImp(cur): calls the slot on cur; caches cur as target exactly when the call was made. */
    method PrepareImp(rt: Runtime, w: World, cur: ObjId) returns (found: bool)
      requires kind.Named?
      modifies this, rt
      ensures found == HasSlot(w, cur, kind.slot)
      ensures target == (if found then Some(cur) else old(target))
      ensures found ==> rt.sender == null
      ensures !found ==> rt.sender == old(rt.sender)
      ensures rt.preparing == old(rt.preparing) && rt.prepares == old(rt.prepares)
      ensures var e := Effect(cur, kind.slot);
        rt.bodies == old(rt.bodies) + (if found && BodyRuns(GuardAt(w, e), rt.preparing) then [e] else [])
      ensures found && rt.preparing ==>
        && enabled == ReportEnabled(GuardAt(w, Effect(cur, kind.slot)), old(enabled))
        && checkable == (old(checkable) || GuardAt(w, Effect(cur, kind.slot)).CheckedIf?)
        && checked == ReportChecked(GuardAt(w, Effect(cur, kind.slot)), old(checked))
      ensures !(found && rt.preparing) ==>
        enabled == old(enabled) && checkable == old(checkable) && checked == old(checked)
      ensures shortcut == old(shortcut) && shortcutContext == old(shortcutContext) && icon == old(icon)
    {
      found := CallFunction(rt, w, cur);
      if found {
        target := Some(cur);
      }
    }

    /** callFunction(o): false when o has no such slot; otherwise calls it with this command
        as sender, clears the sender and reports true. */
    method CallFunction(rt: Runtime, w: World, o: ObjId) returns (ok: bool)
      requires kind.Named?
      modifies this, rt
      ensures ok == HasSlot(w, o, kind.slot)
      ensures ok ==> rt.sender == null
      ensures !ok ==> rt.sender == old(rt.sender)
      ensures rt.preparing == old(rt.preparing) && rt.prepares == old(rt.prepares)
      ensures var e := Effect(o, kind.slot);
        rt.bodies == old(rt.bodies) + (if ok && BodyRuns(GuardAt(w, e), rt.preparing) then [e] else [])
      ensures ok && rt.preparing ==> ReportedBy(GuardAt(w, Effect(o, kind.slot)))
      ensures !(ok && rt.preparing) ==> unchanged(this)
    {
      if !HasSlot(w, o, kind.slot) {
        return false;
      }
      rt.sender := this;
      var e := Effect(o, kind.slot);
      RunSlot(rt, e, GuardAt(w, e));
      rt.sender := null;
      return true;
    }

    /** execute(): preparing off, then the slot runs past its guard when the guard passes.
        A NamedFunction uses the target cached by prepare() and does nothing without one. */
    method Execute(rt: Runtime, w: World)
      modifies this, rt
      ensures unchanged(this)
      ensures rt.prepares == old(rt.prepares)
      ensures rt.bodies == old(rt.bodies) + ExecuteBodies(kind, old(target), w)
      ensures kind.Named? && old(target).None? ==>
        rt.sender == old(rt.sender) && rt.preparing == old(rt.preparing)
      ensures kind.Plain? || old(target).Some? ==> !rt.preparing
      ensures old(rt.sender) == null || kind.Plain? || ExecuteHandler(kind, old(target), w).Some? ==>
        rt.sender == null
    {
      match kind
      case Plain(b) =>
        rt.preparing := false;
        rt.sender := this;
        var h := BoundSlot(b, w);
        if h.Some? {
          RunSlot(rt, h.value, GuardAt(w, h.value));
        }
        rt.sender := null;
      case Named(s) =>
        if target.Some? {
          rt.preparing := false;
          var _ := CallFunction(rt, w, target.value);
        }
    }
  }

  // ---------------------------------------------------------------------------
  // The guard macros and a receiver's slot
  // ---------------------------------------------------------------------------

  /** ENABLED_IF(cond): while the current sender is preparing it reports cond as the sender's
      enabled state and stops the slot; otherwise the body continues exactly when cond holds. */
  method EnabledIfMacro(rt: Runtime, cond: bool) returns (pass: bool)
    modifies rt.sender
    ensures rt.sender != null && rt.preparing ==> !pass && rt.sender.ReportedBy(EnabledIf(cond))
    ensures !(rt.sender != null && rt.preparing) ==> pass == cond
    ensures rt.sender != null && !rt.preparing ==> unchanged(rt.sender)
  {
    var f := rt.sender;
    if f != null && rt.preparing {
      f.enabled := cond;
      return false;
    }
    return cond;
  }

  /** CHECKED_IF(enabled, checked): while preparing it reports enabled, marks the sender
      checkable and sets checked only when enabled; otherwise the body continues iff enabled. */
  method CheckedIfMacro(rt: Runtime, enabled: bool, checked: bool) returns (pass: bool)
    modifies rt.sender
    ensures rt.sender != null && rt.preparing ==> !pass && rt.sender.ReportedBy(CheckedIf(enabled, checked))
    ensures !(rt.sender != null && rt.preparing) ==> pass == enabled
    ensures rt.sender != null && !rt.preparing ==> unchanged(rt.sender)
  {
    var f := rt.sender;
    if f != null && rt.preparing {
      f.enabled := enabled;
      f.checkable := true;
      if enabled {
        f.checked := checked;
      }
      return false;
    }
    return enabled;
  }

  /** A receiver's slot being called: its guard, then its body when the guard lets it through. */
  method RunSlot(rt: Runtime, e: Effect, g: Guard)
    modifies rt, rt.sender
    ensures rt.sender == old(rt.sender) && rt.preparing == old(rt.preparing)
    ensures rt.prepares == old(rt.prepares)
    ensures rt.bodies == old(rt.bodies) + (if BodyRuns(g, rt.sender != null && rt.preparing) then [e] else [])
    ensures rt.sender != null && rt.preparing ==> rt.sender.ReportedBy(g)
    ensures rt.sender != null && !rt.preparing ==> unchanged(rt.sender)
  {
    var pass := true;
    match g {
      case EnabledIf(c) => pass := EnabledIfMacro(rt, c);
      case CheckedIf(en, ch) => pass := CheckedIfMacro(rt, en, ch);
      case Unguarded =>
    }
    if pass {
      rt.bodies := rt.bodies + [e];
    }
  }
}
