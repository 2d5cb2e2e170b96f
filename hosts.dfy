/**
  The command hosts: AutoMenu (refreshes its commands when it is about to be
  shown), AutoToolBar (refreshes them on every tick of its timer), and the two
  shortcut objects (AutoMenuShortcut, AutoShortcut) that on every key press run
  prepare() and then execute() if the command came out enabled.

  The object tree above a menu is given as a chain of nodes: the menu, its
  parent, its parent's parent and so on; the end of the chain is the null parent.
*/
module Hosts {
  import opened Wrappers
  import opened Commands

  /** An action of a menu or toolbar: a command, or any other action the refresh skips. */
  datatype Action = Command(f: UiFunction) | OtherAction(name: string)

  /** The commands among the actions, in action order. */
  function CommandsOf(actions: seq<Action>): (r: seq<UiFunction>)
    ensures |r| <= |actions|
    ensures forall f :: f in r ==> Command(f) in actions
    ensures forall i :: 0 <= i < |actions| && actions[i].Command? ==> actions[i].f in r
  {
    if actions == [] then []
    else
      var last := actions[|actions| - 1];
      CommandsOf(actions[..|actions| - 1]) + (if last.Command? then [last.f] else [])
  }

  /** The commands of two runs of actions are those of the first run, then those of the
      second. */
  lemma {:induction false} CommandsOfAppend(a: seq<Action>, b: seq<Action>)
    ensures CommandsOf(a + b) == CommandsOf(a) + CommandsOf(b)
    decreases |b|
  {
    if b != [] {
      var b0 := b[..|b| - 1];
      assert (a + b)[..|a + b| - 1] == a + b0;
      CommandsOfAppend(a, b0);
    } else {
      assert a + b == a;
    }
  }

  /** The command of action i comes right after the commands of the actions before it, and
      the commands of the actions after it follow. */
  lemma {:induction false} CommandsOfAt(actions: seq<Action>, i: nat)
    requires i < |actions| && actions[i].Command?
    ensures CommandsOf(actions) ==
      CommandsOf(actions[..i]) + [actions[i].f] + CommandsOf(actions[i + 1..])
  {
    var pre, x, post := actions[..i], actions[i], actions[i + 1..];
    assert actions == (pre + [x]) + post;
    CommandsOfAppend(pre + [x], post);
    CommandsOfAppend(pre, [x]);
    CommandsOfOne(x);
  }

  lemma CommandsOfOne(x: Action)
    requires x.Command?
    ensures CommandsOf([x]) == [x.f]
  {
    assert [x][..0] == [];
  }

  function CommandSet(actions: seq<Action>): set<UiFunction>
  {
    set i | 0 <= i < |actions| && actions[i].Command? :: actions[i].f
  }

  /** A widget holds each action at most once. */
  predicate DistinctCommands(actions: seq<Action>)
  {
    forall i, j :: 0 <= i < j < |actions| && actions[i].Command? && actions[j].Command? ==>
      actions[i].f != actions[j].f
  }

  /** Slot bodies a full refresh runs (only those of unguarded slots). */
  function RefreshBodies(actions: seq<Action>, w: World): seq<Effect>
  {
    if actions == [] then []
    else
      var last := actions[|actions| - 1];
      RefreshBodies(actions[..|actions| - 1], w) + (if last.Command? then PrepareBodies(last.f.kind, w) else [])
  }

  /** What a refresh can change in a command. */
  datatype CommandState = CommandState(enabled: bool, checkable: bool, checked: bool, target: Option<ObjId>)

  function StateOf(f: UiFunction): CommandState
    reads f
  {
    CommandState(f.enabled, f.checkable, f.checked, f.target)
  }

  /** The state prepare() leaves a command of kind k in, from state s: enabled and checked
      as the guard reports them, checkable once a CHECKED_IF guard ran, and for a named
      command the receiver it found. */
  function AfterPrepare(k: Kind, w: World, s: CommandState): CommandState
  {
    var g := PreparedGuard(k, w);
    CommandState(
      PreparedEnabled(k, w),
      s.checkable || (g.Some? && g.value.CheckedIf?),
      if g.Some? then ReportChecked(g.value, s.checked) else s.checked,
      if k.Named? then TargetAfterPrepare(k, w) else s.target)
  }

  /** The state prepare() leaves a command in, from the state it had before. */
  twostate predicate Refreshed(f: UiFunction, w: World)
    reads f
  {
    StateOf(f) == AfterPrepare(f.kind, w, old(StateOf(f)))
  }

  /** prepare() on one command, as the refresh loop sees it. */
  method RefreshOne(f: UiFunction, rt: Runtime, w: World)
    modifies f, rt
    ensures rt.prepares == old(rt.prepares) + [f]
    ensures rt.bodies == old(rt.bodies) + PrepareBodies(f.kind, w)
    ensures Refreshed(f, w)
  {
    f.Prepare(rt, w);
  }

  /** The refreshable state of every action; other actions show a fixed filler. */
  function States(actions: seq<Action>): (r: seq<CommandState>)
    reads CommandSet(actions)
    ensures |r| == |actions|
    ensures forall j :: 0 <= j < |actions| && actions[j].Command? ==> r[j] == StateOf(actions[j].f)
  {
    seq(|actions|, j requires 0 <= j < |actions| reads CommandSet(actions) =>
      if actions[j].Command? then StateOf(actions[j].f) else CommandState(false, false, false, None))
  }

  /** The refresh loop's invariant on values: the first i commands hold what prepare() makes
      of their states before, the others still hold those states. */
  predicate RefreshedUpTo(actions: seq<Action>, now: seq<CommandState>, before: seq<CommandState>, i: nat, w: World)
    requires |now| == |before| == |actions| && i <= |actions|
  {
    && (forall j :: 0 <= j < i && actions[j].Command? ==> now[j] == AfterPrepare(actions[j].f.kind, w, before[j]))
    && (forall j :: i <= j < |actions| && actions[j].Command? ==> now[j] == before[j])
  }

  lemma RefreshedUpToStep(actions: seq<Action>, now: seq<CommandState>, next: seq<CommandState>,
                          before: seq<CommandState>, i: nat, w: World)
    requires |now| == |before| == |actions| && i < |actions|
    requires RefreshedUpTo(actions, now, before, i, w)
    requires actions[i].Command? ==> next == now[i := AfterPrepare(actions[i].f.kind, w, now[i])]
    requires !actions[i].Command? ==> next == now
    ensures RefreshedUpTo(actions, next, before, i + 1, w)
  {
  }

  /** One step of the refresh loop: prepare() on action i, which changes no other command. */
  method RefreshAt(actions: seq<Action>, i: nat, rt: Runtime, w: World)
    requires DistinctCommands(actions) && i < |actions| && actions[i].Command?
    modifies rt, actions[i].f
    ensures rt.prepares == old(rt.prepares) + [actions[i].f]
    ensures rt.bodies == old(rt.bodies) + PrepareBodies(actions[i].f.kind, w)
    ensures States(actions) == old(States(actions))[i := AfterPrepare(actions[i].f.kind, w, old(StateOf(actions[i].f)))]
  {
    ghost var now := States(actions);
    var f := actions[i].f;
    RefreshOne(f, rt, w);
    forall j | 0 <= j < |actions| && j != i && actions[j].Command?
      ensures StateOf(actions[j].f) == now[j]
    {
      assert actions[j].f != f;
    }
    assert States(actions) == now[i := AfterPrepare(f.kind, w, now[i])];
  }

  /** The refresh loop of AutoMenu::onShow and AutoToolBar::timerEvent: prepare() once on
      every command, in action order, skipping other actions. */
  method PrepareEach(actions: seq<Action>, rt: Runtime, w: World)
    requires DistinctCommands(actions)
    modifies rt, CommandSet(actions)
    ensures rt.prepares == old(rt.prepares) + CommandsOf(actions)
    ensures rt.bodies == old(rt.bodies) + RefreshBodies(actions, w)
    ensures RefreshedUpTo(actions, States(actions), old(States(actions)), |actions|, w)
  {
    ghost var before := States(actions);
    var i := 0;
    while i < |actions|
      invariant 0 <= i <= |actions|
      invariant rt.prepares == old(rt.prepares) + CommandsOf(actions[..i])
      invariant rt.bodies == old(rt.bodies) + RefreshBodies(actions[..i], w)
      invariant RefreshedUpTo(actions, States(actions), before, i, w)
    {
      assert actions[..i + 1][..i] == actions[..i];
      ghost var now := States(actions);
      if actions[i].Command? {
        RefreshAt(actions, i, rt, w);
      }
      RefreshedUpToStep(actions, now, States(actions), before, i, w);
      i := i + 1;
    }
    assert actions[..i] == actions;
  }

  datatype EventType = ShortcutEvent | OtherEvent(code: nat)

  // ---------------------------------------------------------------------------
  // AutoMenu
  // ---------------------------------------------------------------------------

  datatype NodeKind = MenuNode | MenuBarNode | WidgetNode | PlainObject
  datatype Node = Node(id: ObjId, kind: NodeKind)

  /** _climbToNonMenu: the first node of the chain that is a widget but neither a menu nor
      a menu bar, or none when the chain reaches the null parent first. */
  function ClimbToNonMenu(chain: seq<Node>): (r: Option<ObjId>)
    ensures r.None? ==> forall j :: 0 <= j < |chain| ==> chain[j].kind != WidgetNode
    ensures r.Some? ==> exists k :: 0 <= k < |chain| && chain[k] == Node(r.value, WidgetNode) &&
                          forall j :: 0 <= j < k ==> chain[j].kind != WidgetNode
  {
    if chain == [] then None
    else if chain[0].kind == MenuNode || chain[0].kind == MenuBarNode then
      var r := ClimbToNonMenu(chain[1..]);
      assert forall j :: 1 <= j < |chain| ==> chain[j] == chain[1..][j - 1];
      r
    else if chain[0].kind == WidgetNode then Some(chain[0].id)
    else
      var r := ClimbToNonMenu(chain[1..]);
      assert forall j :: 1 <= j < |chain| ==> chain[j] == chain[1..][j - 1];
      r
  }

  /** The shortcut object a menu command gets: on a Shortcut event it refreshes its item and
      executes it if the refresh left it enabled, so a stale disabled state never blocks it. */
  class MenuShortcut {
    const parent: ObjId
    const item: UiFunction
    const key: string
    const context: ShortcutContext

    constructor (parent: ObjId, item: UiFunction, key: string)
      ensures this.parent == parent && this.item == item && this.key == key
      ensures context == WidgetWithChildrenShortcut
    {
      this.parent := parent;
      this.item := item;
      this.key := key;
      context := WidgetWithChildrenShortcut;
    }

    method Event(e: EventType, rt: Runtime, w: World, baseResult: bool) returns (consumed: bool)
      modifies item, rt
      ensures e == ShortcutEvent ==> consumed
      ensures e == ShortcutEvent ==> rt.prepares == old(rt.prepares) + [item]
      ensures e == ShortcutEvent ==> rt.bodies == old(rt.bodies) + ActivationBodies(item.kind, w)
      ensures e != ShortcutEvent ==> consumed == baseResult && unchanged(item, rt)
    {
      if e == ShortcutEvent {
        item.Prepare(rt, w);
        if item.enabled {
          item.Execute(rt, w);
        }
        return true;
      }
      return baseResult;
    }
  }

  /** _setShortCut(f, key, create): the key is always shown on the action; a separate shortcut
      object is made only for a non-empty key when asked for, and only when a non-menu widget
      is found above the action (otherwise only a warning is issued). */
  method SetShortCut(f: UiFunction, key: string, create: bool, chain: seq<Node>) returns (sc: MenuShortcut?)
    modifies f
    ensures f.shortcut == key
    ensures f.shortcutContext == (if key != [] && create then WidgetShortcut else old(f.shortcutContext))
    ensures f.enabled == old(f.enabled) && f.checkable == old(f.checkable) && f.checked == old(f.checked)
    ensures f.target == old(f.target) && f.icon == old(f.icon)
    ensures sc != null <==> key != [] && create && ClimbToNonMenu(chain).Some?
    ensures sc != null ==> fresh(sc) && sc.item == f && sc.key == key &&
                           sc.parent == ClimbToNonMenu(chain).value && sc.context == WidgetWithChildrenShortcut
  {
    f.shortcut := key;
    sc := null;
    if key != [] && create {
      f.shortcutContext := WidgetShortcut;
      var p := ClimbToNonMenu(chain);
      if p.Some? {
        sc := new MenuShortcut(p.value, f, key);
      }
    }
  }

  class AutoMenu {
    const id: ObjId
    const chain: seq<Node>          // this menu, then its ancestors
    var actions: seq<Action>
    var noPopup: bool
    var shortcuts: seq<MenuShortcut>  // shortcut objects made for its commands

    ghost predicate Valid()
      reads this
    {
      DistinctCommands(actions) && chain != [] && chain[0] == Node(id, MenuNode)
    }

    /** AutoMenu(parent, context): no-popup mode is inherited from a parent AutoMenu, and a
        context menu is never in no-popup mode. */
    constructor (id: ObjId, ancestors: seq<Node>, parentNoPopup: Option<bool>, context: bool)
      ensures Valid() && this.id == id && chain == [Node(id, MenuNode)] + ancestors
      ensures actions == [] && shortcuts == []
      ensures noPopup == (!context && parentNoPopup == Some(true))
    {
      this.id := id;
      chain := [Node(id, MenuNode)] + ancestors;
      actions := [];
      shortcuts := [];
      noPopup := false;
      if parentNoPopup.Some? {
        noPopup := parentNoPopup.value;
      }
      if context {
        noPopup := false;
      }
    }

    /** AutoMenu(title, parent, addMenuBar): no-popup mode is inherited from a parent AutoMenu,
        and set when the menu is added to the menu bar of a main-window parent. */
    constructor Titled(id: ObjId, ancestors: seq<Node>, parentNoPopup: Option<bool>,
                       addMenuBar: bool, parentIsMainWindow: bool)
      ensures Valid() && this.id == id && chain == [Node(id, MenuNode)] + ancestors
      ensures actions == [] && shortcuts == []
      ensures noPopup == ((addMenuBar && parentIsMainWindow) || parentNoPopup == Some(true))
    {
      this.id := id;
      chain := [Node(id, MenuNode)] + ancestors;
      actions := [];
      shortcuts := [];
      noPopup := false;
      if parentNoPopup.Some? {
        noPopup := parentNoPopup.value;
      }
      if addMenuBar && parentIsMainWindow {
        noPopup := true;
      }
    }

    /** onShow: refreshes every command of the menu once, in action order. */
    method OnShow(rt: Runtime, w: World)
      requires Valid()
      modifies rt, CommandSet(actions)
      ensures rt.prepares == old(rt.prepares) + CommandsOf(actions)
      ensures rt.bodies == old(rt.bodies) + RefreshBodies(actions, w)
      ensures RefreshedUpTo(actions, States(actions), old(States(actions)), |actions|, w)
    {
      PrepareEach(actions, rt, w);
    }

    /** Appends f and records the shortcut object _setShortCut made for it, if any. */
    method Register(f: UiFunction, key: string, addAutoShortcut: bool)
      requires Valid() && forall i :: 0 <= i < |actions| && actions[i].Command? ==> actions[i].f != f
      modifies this, f
      ensures Valid()
      ensures actions == old(actions) + [Command(f)] && noPopup == old(noPopup)
      ensures f.shortcut == key && f.enabled == old(f.enabled) && f.target == old(f.target)
      ensures var create := addAutoShortcut || noPopup;
        && f.shortcutContext == (if key != [] && create then WidgetShortcut else old(f.shortcutContext))
        && (if key != [] && create && ClimbToNonMenu(chain).Some?
            then |shortcuts| == |old(shortcuts)| + 1 && shortcuts[..|old(shortcuts)|] == old(shortcuts) &&
                 var sc := shortcuts[|old(shortcuts)|];
                 fresh(sc) && sc.item == f && sc.key == key && sc.parent == ClimbToNonMenu(chain).value
            else shortcuts == old(shortcuts))
    {
      actions := actions + [Command(f)];
      var sc := SetShortCut(f, key, addAutoShortcut || noPopup, chain);
      if sc != null {
        shortcuts := shortcuts + [sc];
      }
    }

    /** addCommand: a UiFunction bound to receiver/member, owned by the menu; a shortcut
        object is requested iff addAutoShortcut is set or the menu is in no-popup mode. */
    method AddCommand(text: string, receiver: ObjId, member: string, key: string, addAutoShortcut: bool)
      returns (f: UiFunction)
      requires Valid()
      modifies this
      ensures Valid() && fresh(f)
      ensures f.kind == Plain(Some(Binding(receiver, member))) && f.owner == id && f.text == text
      ensures f.enabled && f.shortcut == key
      ensures actions == old(actions) + [Command(f)]
      ensures var create := addAutoShortcut || noPopup;
        if key != [] && create && ClimbToNonMenu(chain).Some?
        then |shortcuts| == |old(shortcuts)| + 1 && shortcuts[|old(shortcuts)|].item == f
        else shortcuts == old(shortcuts)
    {
      f := new UiFunction(text, id, Some(Binding(receiver, member)));
      Register(f, key, addAutoShortcut);
    }

    /** addAutoCommand: as addCommand, with a NamedFunction that searches its receiver. */
    method AddAutoCommand(text: string, member: string, key: string, addAutoShortcut: bool)
      returns (f: UiFunction)
      requires Valid()
      modifies this
      ensures Valid() && fresh(f)
      ensures f.kind == Named(NormaliseSlot(member)) && f.owner == id && f.text == text
      ensures f.enabled && f.shortcut == key
      ensures actions == old(actions) + [Command(f)]
      ensures var create := addAutoShortcut || noPopup;
        if key != [] && create && ClimbToNonMenu(chain).Some?
        then |shortcuts| == |old(shortcuts)| + 1 && shortcuts[|old(shortcuts)|].item == f
        else shortcuts == old(shortcuts)
    {
      f := new UiFunction.ForSlot(text, member, id);
      Register(f, key, addAutoShortcut);
    }
  }

  // ---------------------------------------------------------------------------
  // AutoToolBar
  // ---------------------------------------------------------------------------

  class AutoToolBar {
    const id: ObjId
    const parentWidget: ObjId
    var actions: seq<Action>
    var timerId: int      // the refresh timer's id; -1 once stopped

    ghost predicate Valid()
      reads this
    {
      DistinctCommands(actions)
    }

    /** AutoToolBar(parent): starts the refresh timer, which got the id `timer`. */
    constructor (id: ObjId, parentWidget: ObjId, timer: nat)
      ensures Valid() && this.id == id && this.parentWidget == parentWidget
      ensures actions == [] && timerId == timer
    {
      this.id := id;
      this.parentWidget := parentWidget;
      actions := [];
      timerId := timer;
    }

    /** ~AutoToolBar: stops the refresh timer, so no later tick refreshes anything. */
    method Dispose()
      modifies this
      ensures timerId == -1 && actions == old(actions)
    {
      timerId := -1;
    }

    /** timerEvent: only a tick of its own timer refreshes every command, in action order. */
    method TimerEvent(tick: nat, rt: Runtime, w: World)
      requires Valid()
      modifies rt, CommandSet(actions)
      ensures tick == timerId ==> rt.prepares == old(rt.prepares) + CommandsOf(actions)
      ensures tick == timerId ==> rt.bodies == old(rt.bodies) + RefreshBodies(actions, w)
      ensures tick == timerId ==>
        RefreshedUpTo(actions, States(actions), old(States(actions)), |actions|, w)
      ensures tick != timerId ==> unchanged(rt) && unchanged(CommandSet(actions))
    {
      if tick == timerId {
        PrepareEach(actions, rt, w);
      }
    }

    method Append(f: UiFunction, key: string)
      requires Valid() && forall i :: 0 <= i < |actions| && actions[i].Command? ==> actions[i].f != f
      modifies this, f
      ensures Valid() && actions == old(actions) + [Command(f)] && timerId == old(timerId)
      ensures f.shortcut == (if key != [] then key else old(f.shortcut))
      ensures f.enabled == old(f.enabled) && f.icon == old(f.icon)
    {
      if key != [] {
        f.shortcut := key;
      }
      actions := actions + [Command(f)];
    }

    /** addCommand: a UiFunction owned by the toolbar; the key is set only when non-empty. */
    method AddCommand(text: string, receiver: ObjId, member: string, key: string) returns (f: UiFunction)
      requires Valid()
      modifies this
      ensures Valid() && fresh(f) && timerId == old(timerId)
      ensures f.kind == Plain(Some(Binding(receiver, member))) && f.owner == id && f.text == text
      ensures f.enabled && f.shortcut == key && f.icon == []
      ensures actions == old(actions) + [Command(f)]
    {
      f := new UiFunction(text, id, Some(Binding(receiver, member)));
      Append(f, key);
    }

    /** addCommand with an icon: the plain overload, then the icon. */
    method AddCommandWithIcon(icon: string, text: string, receiver: ObjId, member: string, key: string)
      returns (f: UiFunction)
      requires Valid()
      modifies this
      ensures Valid() && fresh(f) && timerId == old(timerId)
      ensures f.kind == Plain(Some(Binding(receiver, member))) && f.owner == id && f.text == text
      ensures f.enabled && f.shortcut == key && f.icon == icon
      ensures actions == old(actions) + [Command(f)]
    {
      f := AddCommand(text, receiver, member, key);
      f.icon := icon;
    }

    /** addAutoCommand: a NamedFunction owned by the toolbar's parent widget. */
    method AddAutoCommand(text: string, member: string, key: string) returns (f: UiFunction)
      requires Valid()
      modifies this
      ensures Valid() && fresh(f) && timerId == old(timerId)
      ensures f.kind == Named(NormaliseSlot(member)) && f.owner == parentWidget && f.text == text
      ensures f.enabled && f.shortcut == key && f.icon == []
      ensures actions == old(actions) + [Command(f)]
    {
      f := new UiFunction.ForSlot(text, member, parentWidget);
      Append(f, key);
    }

    /** addAutoCommand with an icon: the plain overload, then the icon. */
    method AddAutoCommandWithIcon(icon: string, text: string, member: string, key: string)
      returns (f: UiFunction)
      requires Valid()
      modifies this
      ensures Valid() && fresh(f) && timerId == old(timerId)
      ensures f.kind == Named(NormaliseSlot(member)) && f.owner == parentWidget && f.text == text
      ensures f.enabled && f.shortcut == key && f.icon == icon
      ensures actions == old(actions) + [Command(f)]
    {
      f := AddAutoCommand(text, member, key);
      f.icon := icon;
    }
  }

  // ---------------------------------------------------------------------------
  // AutoShortcut
  // ---------------------------------------------------------------------------

  /** A key binding owning its own command; the binding stays live while the command shows
      as disabled, because every press refreshes the command first. */
  class AutoShortcut {
    const id: ObjId
    const parent: ObjId
    const key: string
    const context: ShortcutContext
    const f: UiFunction

    /** AutoShortcut(key, parent, receiver, member): wraps a UiFunction bound to receiver/member. */
    constructor ForReceiver(id: ObjId, key: string, parent: ObjId, receiver: ObjId, member: string)
      ensures this.id == id && this.key == key && this.parent == parent
      ensures context == WidgetWithChildrenShortcut
      ensures fresh(f) && f.kind == Plain(Some(Binding(receiver, member))) && f.owner == id && f.enabled
    {
      this.id := id;
      this.key := key;
      this.parent := parent;
      context := WidgetWithChildrenShortcut;
      f := new UiFunction([], id, Some(Binding(receiver, member)));
    }

    /** AutoShortcut(parent, member, key) and AutoShortcut(key, parent, member): wrap a
        NamedFunction that searches its receiver. */
    constructor ForMember(id: ObjId, key: string, parent: ObjId, member: string)
      ensures this.id == id && this.key == key && this.parent == parent
      ensures context == WidgetWithChildrenShortcut
      ensures fresh(f) && f.kind == Named(NormaliseSlot(member)) && f.owner == id && f.enabled
    {
      this.id := id;
      this.key := key;
      this.parent := parent;
      context := WidgetWithChildrenShortcut;
      f := new UiFunction.ForSlot([], member, id);
    }

    /** onActivated: prepare(), then execute() only if that left the command enabled. */
    method OnActivated(rt: Runtime, w: World)
      modifies f, rt
      ensures rt.prepares == old(rt.prepares) + [f]
      ensures rt.bodies == old(rt.bodies) + ActivationBodies(f.kind, w)
      ensures f.enabled == PreparedEnabled(f.kind, w)
    {
      f.Prepare(rt, w);
      if f.enabled {
        f.Execute(rt, w);
      }
    }

    /** event: a Shortcut event runs onActivated and is consumed; others go to the base class. */
    method Event(e: EventType, rt: Runtime, w: World, baseResult: bool) returns (consumed: bool)
      modifies f, rt
      ensures e == ShortcutEvent ==> consumed
      ensures e == ShortcutEvent ==> rt.prepares == old(rt.prepares) + [f]
      ensures e == ShortcutEvent ==> rt.bodies == old(rt.bodies) + ActivationBodies(f.kind, w)
      ensures e != ShortcutEvent ==> consumed == baseResult && unchanged(f, rt)
    {
      if e == ShortcutEvent {
        OnActivated(rt, w);
        return true;
      }
      return baseResult;
    }
  }
}
