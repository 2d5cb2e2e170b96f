/**
  DocTabWidget: a tab widget whose tabs either show a document (identified by a value)
  or are fixed. It keeps two lists beside Qt's tabs: one value per tab (null for a fixed
  tab) and the widgets in most-recently-shown order. Widgets are identified by number.
*/
module DocTabs {
  import opened Commands

  /** QVariant as the widget uses it: null, or a document value. */
  datatype Variant = Null | Doc(id: nat)

  type WidgetId = nat

  /** The answer to the "save before closing?" question. */
  datatype Answer = Yes | No | Cancel

  predicate DistinctWidgets(s: seq<WidgetId>)
  {
    forall i, j :: 0 <= i < j < |s| ==> s[i] != s[j]
  }

  /** s without any occurrence of x, the rest in order. */
  function Without(s: seq<WidgetId>, x: WidgetId): (r: seq<WidgetId>)
    ensures x !in r
  {
    if s == [] then [] else (if s[0] == x then [] else [s[0]]) + Without(s[1..], x)
  }

  lemma {:induction false} WithoutAppend(a: seq<WidgetId>, b: seq<WidgetId>, x: WidgetId)
    ensures Without(a + b, x) == Without(a, x) + Without(b, x)
  {
    if a != [] {
      var h := if a[0] == x then [] else [a[0]];
      assert (a + b)[0] == a[0];
      assert (a + b)[1..] == a[1..] + b;
      calc {
        Without(a + b, x);
        h + Without(a[1..] + b, x);
        { WithoutAppend(a[1..], b, x); }
        h + (Without(a[1..], x) + Without(b, x));
        (h + Without(a[1..], x)) + Without(b, x);
        Without(a, x) + Without(b, x);
      }
    } else {
      assert a + b == b;
    }
  }

  lemma {:induction false} WithoutAbsent(s: seq<WidgetId>, x: WidgetId)
    requires x !in s
    ensures Without(s, x) == s
  {
    if s != [] {
      WithoutAbsent(s[1..], x);
    }
  }

  /** A widget is left in s without x exactly when it was in s and is not x. */
  lemma {:induction false} WithoutHas(s: seq<WidgetId>, x: WidgetId, y: WidgetId)
    ensures y in Without(s, x) <==> y in s && y != x
  {
    if s != [] {
      WithoutHas(s[1..], x, y);
      assert s == [s[0]] + s[1..];
    }
  }

  /** Removing the entry at j from a list without repeats: no repeats, the removed widget
      gone, no widget added. */
  lemma RemoveAtKeepsDistinct(s: seq<WidgetId>, j: nat)
    requires DistinctWidgets(s) && j < |s|
    ensures var r := s[..j] + s[j + 1..];
      DistinctWidgets(r) && s[j] !in r && forall y :: y in r ==> y in s
  {
    var r := s[..j] + s[j + 1..];
    assert forall a :: 0 <= a < |r| ==> r[a] == s[if a < j then a else a + 1];
  }

  /** In a list without repeats, removing the entry at j removes every occurrence of it. */
  lemma {:induction false} WithoutAt(s: seq<WidgetId>, j: nat)
    requires DistinctWidgets(s) && j < |s|
    ensures Without(s, s[j]) == s[..j] + s[j + 1..]
  {
    var x, t := s[j], s[1..];
    if j == 0 {
      assert x !in t by {
        forall k | 0 <= k < |t|
          ensures t[k] != x
        {
          assert t[k] == s[k + 1];
        }
      }
      WithoutAbsent(t, x);
    } else {
      assert s[0] != x;
      assert DistinctWidgets(t) by {
        forall a, b | 0 <= a < b < |t|
          ensures t[a] != t[b]
        {
          assert t[a] == s[a + 1] && t[b] == s[b + 1];
        }
      }
      assert t[j - 1] == x;
      WithoutAt(t, j - 1);
      assert s[..j] == [s[0]] + t[..j - 1];
      assert s[j + 1..] == t[j..];
    }
  }

  /** The first index of x, or -1 (QList::indexOf). */
  function IndexOf(s: seq<WidgetId>, x: WidgetId): (r: int)
    ensures -1 <= r < |s|
    ensures r == -1 <==> x !in s
    ensures r != -1 ==> s[r] == x && x !in s[..r]
  {
    if s == [] then -1
    else if s[0] == x then 0
    else
      var k := IndexOf(s[1..], x);
      if k == -1 then -1
      else
        assert s[..k + 1] == [s[0]] + s[1..][..k];
        k + 1
  }

  /** The most-recently-shown order after onTabChanged(i): a negative index clears it;
      otherwise the widget of tab i, when listed, moves to the end. */
  function TabChanged(order: seq<WidgetId>, tabs: seq<WidgetId>, i: int): seq<WidgetId>
  {
    if i < 0 then []
    else if i < |tabs| && tabs[i] in order then
      var p := IndexOf(order, tabs[i]);
      order[..p] + order[p + 1..] + [tabs[i]]
    else order
  }

  /** The reordering step of onTabChanged: clear the list for a negative index, else find
      the widget of tab i and move it from its place to the end. */
  method MoveToEnd(order: seq<WidgetId>, tabs: seq<WidgetId>, i: int) returns (r: seq<WidgetId>)
    ensures r == TabChanged(order, tabs, i)
  {
    r := order;
    if i < 0 {
      r := [];
    } else if i < |tabs| {
      var pos := IndexOf(r, tabs[i]);
      if pos != -1 {
        var w := r[pos];
        r := r[..pos] + r[pos + 1..];
        r := r + [w];
      }
    }
  }

  lemma MultisetRemoveAt(s: seq<WidgetId>, j: nat)
    requires j < |s|
    ensures multiset(s[..j] + s[j + 1..] + [s[j]]) == multiset(s)
  {
    assert s == s[..j] + [s[j]] + s[j + 1..];
    assert multiset(s) == multiset(s[..j]) + multiset{s[j]} + multiset(s[j + 1..]);
  }

  /** Appending a widget not yet listed keeps the list free of repeats. */
  lemma AppendFresh(rest: seq<WidgetId>, w: WidgetId)
    requires DistinctWidgets(rest) && w !in rest
    ensures DistinctWidgets(rest + [w]) && Without(rest + [w], w) == rest
  {
    var r := rest + [w];
    forall a, b | 0 <= a < b < |r|
      ensures r[a] != r[b]
    {
      if b == |rest| {
        assert r[a] == rest[a];
      } else {
        assert r[a] == rest[a] && r[b] == rest[b];
      }
    }
    WithoutAppend(rest, [w], w);
    WithoutAbsent(rest, w);
    assert Without([w], w) == [] by {
      assert [w][1..] == [];
    }
  }

  /** Moving a widget to the end keeps the same widgets, puts it last, and keeps the
      others in their order. */
  lemma TabChangedMovesToEnd(order: seq<WidgetId>, tabs: seq<WidgetId>, i: nat)
    requires DistinctWidgets(order) && i < |tabs| && tabs[i] in order
    ensures var r := TabChanged(order, tabs, i);
      multiset(r) == multiset(order) && r[|r| - 1] == tabs[i] &&
      Without(r, tabs[i]) == Without(order, tabs[i]) && DistinctWidgets(r) &&
      forall y :: y in r ==> y in order
  {
    var w := tabs[i];
    var j := IndexOf(order, w);
    var rest := order[..j] + order[j + 1..];
    assert TabChanged(order, tabs, i) == rest + [w];
    WithoutAt(order, j);
    RemoveAtKeepsDistinct(order, j);
    AppendFresh(rest, w);
    MultisetRemoveAt(order, j);
    forall y | y in rest + [w]
      ensures y in order
    {
      assert y in multiset(rest + [w]);
    }
  }

  /** onTabChanged keeps the order free of repeats and within the tabs. */
  lemma TabChangedKeepsValid(order: seq<WidgetId>, tabs: seq<WidgetId>, i: int)
    requires DistinctWidgets(order) && forall w :: w in order ==> w in tabs
    ensures var r := TabChanged(order, tabs, i);
      DistinctWidgets(r) && forall w :: w in r ==> w in tabs
  {
    if 0 <= i < |tabs| && tabs[i] in order {
      TabChangedMovesToEnd(order, tabs, i);
    }
  }

  /** onTabChanged for a tab index keeps the same widgets in the order. */
  lemma TabChangedSameWidgets(order: seq<WidgetId>, tabs: seq<WidgetId>, i: int, y: WidgetId)
    requires DistinctWidgets(order) && i >= 0
    ensures y in TabChanged(order, tabs, i) <==> y in order
  {
    if i < |tabs| && tabs[i] in order {
      TabChangedMovesToEnd(order, tabs, i);
      assert y in TabChanged(order, tabs, i) <==> y in multiset(TabChanged(order, tabs, i));
    }
  }

  /** A tab as the two parallel lists describe it. */
  datatype Tab = Tab(view: Variant, widget: WidgetId)

  function Pairs(views: seq<Variant>, tabs: seq<WidgetId>): (r: seq<Tab>)
    requires |views| == |tabs|
    ensures |r| == |views| && forall k :: 0 <= k < |r| ==> r[k] == Tab(views[k], tabs[k])
  {
    seq(|views|, k requires 0 <= k < |views| => Tab(views[k], tabs[k]))
  }

  lemma PairsHas(views: seq<Variant>, tabs: seq<WidgetId>, k: nat)
    requires |views| == |tabs| && k < |views|
    ensures Tab(views[k], tabs[k]) in Pairs(views, tabs)
  {
    assert Pairs(views, tabs)[k] == Tab(views[k], tabs[k]);
  }

  lemma PairsMember(views: seq<Variant>, tabs: seq<WidgetId>, t: Tab)
    requires |views| == |tabs| && t in Pairs(views, tabs)
    ensures t.widget in tabs
  {
    var k :| 0 <= k < |views| && Pairs(views, tabs)[k] == t;
    assert tabs[k] == t.widget;
  }

  lemma PairsRemoveAt(views: seq<Variant>, tabs: seq<WidgetId>, i: nat)
    requires |views| == |tabs| && i < |views|
    ensures Pairs(views[..i] + views[i + 1..], tabs[..i] + tabs[i + 1..]) ==
            Pairs(views, tabs)[..i] + Pairs(views, tabs)[i + 1..]
  {
  }

  /** Whether a close-all loop leaves a tab open: fixed tabs, and the tab of widget keep. */
  predicate Spared(t: Tab, keep: int)
  {
    t.view.Null? || t.widget == keep
  }

  function SparedTabs(ts: seq<Tab>, keep: int): (r: seq<Tab>)
    ensures forall t :: t in r <==> t in ts && Spared(t, keep)
  {
    if ts == [] then []
    else
      assert ts == [ts[0]] + ts[1..];
      (if Spared(ts[0], keep) then [ts[0]] else []) + SparedTabs(ts[1..], keep)
  }

  lemma {:induction false} SparedAppend(a: seq<Tab>, b: seq<Tab>, keep: int)
    ensures SparedTabs(a + b, keep) == SparedTabs(a, keep) + SparedTabs(b, keep)
  {
    if a != [] {
      var h := if Spared(a[0], keep) then [a[0]] else [];
      assert (a + b)[0] == a[0];
      assert (a + b)[1..] == a[1..] + b;
      calc {
        SparedTabs(a + b, keep);
        h + SparedTabs(a[1..] + b, keep);
        { SparedAppend(a[1..], b, keep); }
        h + (SparedTabs(a[1..], keep) + SparedTabs(b, keep));
        (h + SparedTabs(a[1..], keep)) + SparedTabs(b, keep);
        SparedTabs(a, keep) + SparedTabs(b, keep);
      }
    } else {
      assert a + b == b;
    }
  }

  lemma {:induction false} SparedAll(ts: seq<Tab>, keep: int)
    requires forall k :: 0 <= k < |ts| ==> Spared(ts[k], keep)
    ensures SparedTabs(ts, keep) == ts
  {
    if ts != [] {
      SparedAll(ts[1..], keep);
    }
  }

  lemma SparedBetween(a: seq<Tab>, x: Tab, b: seq<Tab>, keep: int)
    requires !Spared(x, keep)
    ensures SparedTabs(a + [x] + b, keep) == SparedTabs(a + b, keep)
  {
    assert SparedTabs([x], keep) == [] by {
      assert [x][1..] == [];
    }
    SparedAppend(a + [x], b, keep);
    SparedAppend(a, [x], keep);
    SparedAppend(a, b, keep);
  }

  /** Closing a tab the loop does not spare leaves the spared tabs as they were. */
  lemma SparedRemoveAt(ts: seq<Tab>, i: nat, keep: int)
    requires i < |ts| && !Spared(ts[i], keep)
    ensures SparedTabs(ts[..i] + ts[i + 1..], keep) == SparedTabs(ts, keep)
  {
    var a, x, b := ts[..i], ts[i], ts[i + 1..];
    assert ts == a + [x] + b;
    SparedBetween(a, x, b, keep);
  }

  /** Closing tab i, which the loop does not spare, leaves the spared tabs as they were. */
  lemma ClosedTabNotSpared(views: seq<Variant>, tabs: seq<WidgetId>, i: nat, keep: int)
    requires |views| == |tabs| && i < |views| && !(views[i].Null? || tabs[i] == keep)
    ensures SparedTabs(Pairs(views[..i] + views[i + 1..], tabs[..i] + tabs[i + 1..]), keep) ==
            SparedTabs(Pairs(views, tabs), keep)
  {
    SparedRemoveAt(Pairs(views, tabs), i, keep);
    PairsRemoveAt(views, tabs, i);
  }

  /** The indices checkSavedAll offers to save: documents other than `except` that report
      unsaved data, in tab order. */
  function ToSave(views: seq<Variant>, unsaved: seq<bool>, except: int, from: nat): (r: seq<nat>)
    requires |unsaved| == |views| && from <= |views|
    ensures forall k :: k in r <==> from <= k < |views| && views[k].Doc? && k != except && unsaved[k]
    ensures forall a, b :: 0 <= a < b < |r| ==> r[a] < r[b]
    decreases |views| - from
  {
    if from == |views| then []
    else
      var rest := ToSave(views, unsaved, except, from + 1);
      assert forall b :: 0 <= b < |rest| ==> rest[b] in rest;
      if views[from].Doc? && from != except && unsaved[from] then [from] + rest else rest
  }

  /** Every save of the list succeeds. */
  predicate NoneFails(toSave: seq<nat>, fails: set<nat>)
  {
    forall k :: k in toSave ==> k !in fails
  }

  /** The saves that run until the first failure, that one included. */
  function SavedUntilFailure(toSave: seq<nat>, fails: set<nat>): (r: seq<nat>)
    ensures r <= toSave
    ensures forall k :: 0 <= k < |r| - 1 ==> r[k] !in fails
    ensures r != toSave ==> r != [] && r[|r| - 1] in fails
    ensures NoneFails(toSave, fails) ==> r == toSave
  {
    if toSave == [] then []
    else if toSave[0] in fails then [toSave[0]]
    else [toSave[0]] + SavedUntilFailure(toSave[1..], fails)
  }

  /** The outcome of checkSavedAll and the saves it ran. */
  datatype SaveCheck = SaveCheck(proceed: bool, saved: seq<nat>)

  class DocTabWidget {
    var views: seq<Variant>
    var tabs: seq<WidgetId>
    var order: seq<WidgetId>
    var current: int
    var closerEnabled: bool
    var tabBarVisible: bool
    const hideSingleTab: bool

    ghost predicate Valid()
      reads this
    {
      && |views| == |tabs|
      && -1 <= current < |tabs|
      && (current == -1 <==> tabs == [])
      && DistinctWidgets(tabs)
      && DistinctWidgets(order)
      && (forall w :: w in order ==> w in tabs)
    }

    /** The closer button's state as updateState sets it. */
    function CloserState(): bool
      reads this
      requires -1 <= current < |views|
    {
      current != -1 && views[current].Doc?
    }

    /** DocTabWidget(parent, hideSingleTab): no tabs, the closer disabled, and the tab bar
        hidden when single tabs are to be hidden. */
    constructor (hideSingle: bool)
      ensures Valid()
      ensures views == [] && tabs == [] && order == [] && current == -1
      ensures !closerEnabled && tabBarVisible == !hideSingle && hideSingleTab == hideSingle
    {
      views, tabs, order := [], [], [];
      current := -1;
      closerEnabled := false;
      tabBarVisible := !hideSingle;
      hideSingleTab := hideSingle;
    }

    /** onTabChanged followed by updateState. */
    method OnTabChanged(i: int)
      requires Valid()
      modifies this`order, this`closerEnabled, this`tabBarVisible
      ensures Valid()
      ensures order == TabChanged(old(order), tabs, i)
      ensures closerEnabled == CloserState()
      ensures tabBarVisible == if hideSingleTab then |tabs| > 1 else old(tabBarVisible)
    {
      TabChangedKeepsValid(order, tabs, i);
      order := MoveToEnd(order, tabs, i);
      closerEnabled := current != -1 && views[current].Doc?;
      if hideSingleTab {
        tabBarVisible := |tabs| > 1;
      }
    }

    /** QTabWidget::setCurrentIndex: a change of tab runs onTabChanged. */
    method SetCurrentIndex(i: nat)
      requires Valid() && i < |tabs|
      modifies this`current, this`order, this`closerEnabled, this`tabBarVisible
      ensures Valid() && current == i
      ensures order == if i != old(current) then TabChanged(old(order), tabs, i) else old(order)
      ensures i != old(current) ==> closerEnabled == CloserState()
      ensures i != old(current) ==> tabBarVisible == if hideSingleTab then |tabs| > 1 else old(tabBarVisible)
      ensures i == old(current) ==> closerEnabled == old(closerEnabled) && tabBarVisible == old(tabBarVisible)
    {
      if i != current {
        current := i;
        OnTabChanged(i);
      }
    }

    /** addDoc(w, doc) and, with doc == Null, addFixed(w): one more entry in both lists,
        the new tab current, its widget last in the order; answers the new index. */
    method AddDoc(w: WidgetId, doc: Variant) returns (index: nat)
      requires Valid() && w !in tabs
      modifies this`views, this`tabs, this`current, this`order, this`closerEnabled, this`tabBarVisible
      ensures Valid()
      ensures views == old(views) + [doc] && tabs == old(tabs) + [w] && order == old(order) + [w]
      ensures index == |views| - 1 && current == index
      ensures closerEnabled == doc.Doc?
      ensures hideSingleTab ==> tabBarVisible == (|tabs| > 1)
    {
      views := views + [doc];
      tabs := tabs + [w];
      assert DistinctWidgets(tabs) by {
        forall i, j | 0 <= i < j < |tabs|
          ensures tabs[i] != tabs[j]
        {
          if j == |tabs| - 1 {
            assert tabs[i] in old(tabs);
          }
        }
      }
      if current == -1 {
        current := 0;
        OnTabChanged(0);
      }
      SetCurrentIndex(|views| - 1);
      order := order + [w];
      index := |views| - 1;
    }

    /** findDoc: the first tab holding an equal value, or -1 (a null value finds the first
        fixed tab). */
    method FindDoc(doc: Variant) returns (r: int)
      ensures -1 <= r < |views|
      ensures r == -1 <==> doc !in views
      ensures r != -1 ==> views[r] == doc && doc !in views[..r]
    {
      var i := 0;
      while i < |views|
        invariant 0 <= i <= |views| && doc !in views[..i]
      {
        if views[i] == doc {
          return i;
        }
        assert views[..i + 1] == views[..i] + [views[i]];
        i := i + 1;
      }
      assert views[..i] == views;
      return -1;
    }

    /** showDoc: makes the found tab current; answers findDoc's result. */
    method ShowDoc(doc: Variant) returns (pos: int)
      requires Valid()
      modifies this`current, this`order, this`closerEnabled, this`tabBarVisible
      ensures Valid()
      ensures -1 <= pos < |views|
      ensures pos == -1 <==> doc !in views
      ensures pos != -1 ==> views[pos] == doc && doc !in views[..pos] && current == pos
      ensures pos == -1 ==> current == old(current) && order == old(order)
      ensures pos != -1 ==> order == if pos != old(current) then TabChanged(old(order), tabs, pos) else old(order)
    {
      pos := FindDoc(doc);
      if pos != -1 {
        SetCurrentIndex(pos);
      }
    }

    /** closeTab(i): nothing for -1, an index past the end, or a fixed tab; otherwise the
        entry and its widget leave both lists and the order. Qt then picks the tab to the
        right (or the new last) when the current tab closed, or shifts the current index
        when a tab before it closed, and reports that as a tab change. */
    method CloseTab(i: int)
      requires Valid() && i >= -1
      modifies this`views, this`tabs, this`current, this`order, this`closerEnabled, this`tabBarVisible
      ensures Valid()
      ensures i == -1 || i >= |old(views)| || old(views)[i].Null? ==>
        views == old(views) && tabs == old(tabs) && order == old(order) && current == old(current) &&
        closerEnabled == old(closerEnabled) && tabBarVisible == old(tabBarVisible)
      ensures 0 <= i < |old(views)| && old(views)[i].Doc? ==>
        var w := old(tabs)[i];
        && views == old(views)[..i] + old(views)[i + 1..]
        && tabs == old(tabs)[..i] + old(tabs)[i + 1..]
        && current == (if i < old(current) then old(current) - 1
                       else if i > old(current) then old(current)
                       else if i < |tabs| then i else |tabs| - 1)
        && order == (if i <= old(current) then TabChanged(Without(old(order), w), tabs, current)
                     else Without(old(order), w))
        && (i <= old(current) ==>
              closerEnabled == CloserState() &&
              tabBarVisible == if hideSingleTab then |tabs| > 1 else old(tabBarVisible))
        && (i > old(current) ==> closerEnabled == old(closerEnabled) && tabBarVisible == old(tabBarVisible))
        && forall y :: y in order <==> y in old(order) && y in tabs
    {
      if i == -1 || i >= |views| {
        return;
      }
      if views[i].Null? {
        return;
      }
      var w := tabs[i];
      ghost var order0, tabs0 := order, tabs;
      DropFromOrder(w);
      RemoveAtKeepsDistinct(tabs, i);
      assert tabs == tabs[..i] + [w] + tabs[i + 1..];
      views := views[..i] + views[i + 1..];
      tabs := tabs[..i] + tabs[i + 1..];
      // QTabBar::removeTab
      if i == current {
        if tabs == [] {
          current := -1;
          OnTabChanged(-1);
        } else {
          current := if i < |tabs| then i else |tabs| - 1;
          OnTabChanged(current);
        }
      } else if i < current {
        current := current - 1;
        OnTabChanged(current);
      }
      forall y
        ensures y in order <==> y in order0 && y in tabs
      {
        WithoutHas(order0, w, y);
        if current >= 0 {
          TabChangedSameWidgets(Without(order0, w), tabs, current, y);
        }
      }
    }

    /** The search of closeTab for the closed widget in the activation order, and its
        removal there. */
    method DropFromOrder(w: WidgetId)
      requires DistinctWidgets(order)
      modifies this`order
      ensures order == Without(old(order), w) && DistinctWidgets(order)
      ensures forall y :: y in order ==> y in old(order)
    {
      ghost var order0 := order;
      var j := 0;
      while j < |order|
        invariant 0 <= j <= |order| && order == order0 && w !in order[..j]
      {
        if order[j] == w {
          WithoutAt(order, j);
          RemoveAtKeepsDistinct(order, j);
          order := order[..j] + order[j + 1..];
          return;
        }
        assert order[..j + 1] == order[..j] + [order[j]];
        j := j + 1;
      }
      assert order[..|order|] == order;
      WithoutAbsent(order, w);
    }

    /** checkSavedAll(butCur) as the source has it: the return after the save loop is not
        part of the loop, so answering Yes saves everything and still reports false. */
    method CheckSavedAllAsWritten(butCur: bool, unsaved: seq<bool>, answer: Answer, fails: set<nat>)
      returns (r: SaveCheck)
      requires |unsaved| == |views|
      ensures var toSave := ToSave(views, unsaved, if butCur then current else -1, 0);
        r == if toSave == [] then SaveCheck(true, [])
             else if answer == Yes then SaveCheck(false, toSave)
             else SaveCheck(answer == No, [])
      ensures r.proceed == ProceedsAsWritten(ToSave(views, unsaved, if butCur then current else -1, 0), answer)
    {
      var toSave := CollectToSave(butCur, unsaved);
      if toSave != [] {
        match answer
        case Yes =>
          return SaveCheck(false, toSave);
        case No =>
        case Cancel =>
          return SaveCheck(false, []);
      }
      return SaveCheck(true, []);
    }

    /** checkSavedAll(butCur) with the failure test and its return in one block: saving stops
        at the first failure and reports false; when all saves succeed it reports true. */
    method CheckSavedAll(butCur: bool, unsaved: seq<bool>, answer: Answer, fails: set<nat>)
      returns (r: SaveCheck)
      requires |unsaved| == |views|
      ensures var toSave := ToSave(views, unsaved, if butCur then current else -1, 0);
        r == if toSave == [] then SaveCheck(true, [])
             else match answer
               case Yes => SaveCheck(NoneFails(toSave, fails), SavedUntilFailure(toSave, fails))
               case No => SaveCheck(true, [])
               case Cancel => SaveCheck(false, [])
      ensures r.proceed == Proceeds(ToSave(views, unsaved, if butCur then current else -1, 0), answer, fails)
    {
      var toSave := CollectToSave(butCur, unsaved);
      if toSave != [] {
        match answer
        case Yes =>
          var ok, saved := SaveEach(toSave, fails);
          return SaveCheck(ok, saved);
        case No =>
        case Cancel =>
          return SaveCheck(false, []);
      }
      return SaveCheck(true, []);
    }

    /** The first loop of checkSavedAll. */
    method CollectToSave(butCur: bool, unsaved: seq<bool>) returns (toSave: seq<nat>)
      requires |unsaved| == |views|
      ensures toSave == ToSave(views, unsaved, if butCur then current else -1, 0)
    {
      var except := if butCur then current else -1;
      toSave := [];
      var i := |views|;
      while i > 0
        invariant 0 <= i <= |views| && toSave == ToSave(views, unsaved, except, i)
      {
        i := i - 1;
        if views[i].Doc? && i != except && unsaved[i] {
          toSave := [i] + toSave;
        }
      }
    }

    /** onCloseDoc: ENABLED_IF(the current tab holds a document); an unsaved document is
        saved first on Yes (a failed save keeps the tab), kept on Cancel. */
    method OnCloseDoc(rt: Runtime, unsaved: bool, answer: Answer, saveOk: bool)
      requires Valid()
      modifies this`views, this`tabs, this`current, this`order, this`closerEnabled, this`tabBarVisible, rt.sender
      ensures Valid()
      ensures rt.sender != null && rt.preparing ==>
        views == old(views) && tabs == old(tabs) && current == old(current) && order == old(order) &&
        rt.sender.ReportedBy(EnabledIf(CloserState()))
      ensures !(rt.sender != null && rt.preparing) ==>
        var closes := old(CloserState()) && (!unsaved || answer == No || (answer == Yes && saveOk));
        (closes ==>
          && views == old(views)[..old(current)] + old(views)[old(current) + 1..]
          && tabs == old(tabs)[..old(current)] + old(tabs)[old(current) + 1..]
          && current == (if old(current) < |tabs| then old(current) else |tabs| - 1)
          && order == TabChanged(Without(old(order), old(tabs)[old(current)]), tabs, current)
          && closerEnabled == CloserState()
          && tabBarVisible == if hideSingleTab then |tabs| > 1 else old(tabBarVisible)) &&
        (!closes ==> views == old(views) && tabs == old(tabs) && current == old(current) && order == old(order))
    {
      var pass := EnabledIfMacro(rt, current != -1 && views[current].Doc?);
      if !pass {
        return;
      }
      if unsaved {
        match answer
        case Yes =>
          if !saveOk {
            return;
          }
        case No =>
        case Cancel =>
          return;
      }
      CloseTab(current);
    }

    /** onCloseAll: ENABLED_IF(any tab); once checkSavedAll(false), as written, agrees (nothing
        to save, or the answer No), every document tab closes and exactly the fixed tabs stay,
        in their order; the activation order keeps just the widgets still open. */
    method OnCloseAll(rt: Runtime, unsaved: seq<bool>, answer: Answer, fails: set<nat>)
      requires Valid() && |unsaved| == |views|
      modifies this`views, this`tabs, this`current, this`order, this`closerEnabled, this`tabBarVisible, rt.sender
      ensures Valid()
      ensures rt.sender != null && rt.preparing ==>
        views == old(views) && tabs == old(tabs) && rt.sender.ReportedBy(EnabledIf(views != []))
      ensures !(rt.sender != null && rt.preparing) && old(views) != [] ==>
        var check := ProceedsAsWritten(ToSave(old(views), unsaved, -1, 0), answer);
        (check ==> Pairs(views, tabs) == SparedTabs(Pairs(old(views), old(tabs)), -1) &&
                   forall y :: y in order <==> y in old(order) && y in tabs) &&
        (!check ==> views == old(views) && tabs == old(tabs) && current == old(current) && order == old(order))
      ensures old(views) == [] ==> views == old(views) && tabs == old(tabs)
    {
      var pass := EnabledIfMacro(rt, views != []);
      if !pass {
        return;
      }
      var r := CheckSavedAllAsWritten(false, unsaved, answer, fails);
      if !r.proceed {
        return;
      }
      CloseAllExcept(-1);
    }

    /** onCloseAllButThis: ENABLED_IF(the current tab holds a document); once
        checkSavedAll(true), as written, agrees (nothing to save, or the answer No), only the
        fixed tabs and the current one stay, the latter still current; the activation order
        keeps just the widgets still open. */
    method OnCloseAllButThis(rt: Runtime, unsaved: seq<bool>, answer: Answer, fails: set<nat>)
      requires Valid() && |unsaved| == |views|
      modifies this`views, this`tabs, this`current, this`order, this`closerEnabled, this`tabBarVisible, rt.sender
      ensures Valid()
      ensures rt.sender != null && rt.preparing ==>
        views == old(views) && tabs == old(tabs) && rt.sender.ReportedBy(EnabledIf(CloserState()))
      ensures !(rt.sender != null && rt.preparing) && old(CloserState()) ==>
        var check := ProceedsAsWritten(ToSave(old(views), unsaved, old(current), 0), answer);
        (check ==> Pairs(views, tabs) == SparedTabs(Pairs(old(views), old(tabs)), old(tabs)[old(current)]) &&
                   0 <= current && tabs[current] == old(tabs)[old(current)] &&
                   forall y :: y in order <==> y in old(order) && y in tabs) &&
        (!check ==> views == old(views) && tabs == old(tabs) && current == old(current) && order == old(order))
      ensures !old(CloserState()) ==> views == old(views) && tabs == old(tabs)
    {
      var pass := EnabledIfMacro(rt, current != -1 && views[current].Doc?);
      if !pass {
        return;
      }
      var r := CheckSavedAllAsWritten(true, unsaved, answer, fails);
      if !r.proceed {
        return;
      }
      CloseAllExcept(tabs[current]);
    }

    /** The while loop of the two close-all slots: step over spared tabs, close the others.
        The activation order keeps exactly its widgets still open, and a current tab that is
        spared stays current. */
    method CloseAllExcept(keep: int)
      requires Valid()
      modifies this`views, this`tabs, this`current, this`order, this`closerEnabled, this`tabBarVisible
      ensures Valid()
      ensures Pairs(views, tabs) == SparedTabs(Pairs(old(views), old(tabs)), keep)
      ensures forall y :: y in order <==> y in old(order) && y in tabs
      ensures 0 <= old(current) && old(tabs)[old(current)] == keep ==> 0 <= current && tabs[current] == keep
    {
      var i := 0;
      while i < |views|
        invariant Valid() && 0 <= i <= |views|
        invariant forall k :: 0 <= k < i ==> views[k].Null? || tabs[k] == keep
        invariant SparedTabs(Pairs(views, tabs), keep) == SparedTabs(Pairs(old(views), old(tabs)), keep)
        invariant forall y :: y in order <==> y in old(order) && y in tabs
        invariant 0 <= old(current) && old(tabs)[old(current)] == keep ==> 0 <= current && tabs[current] == keep
        decreases 2 * |views| - i
      {
        if views[i].Null? || tabs[i] == keep {
          i := i + 1;
        } else {
          CloseUnspared(i, keep);
        }
      }
      SparedAll(Pairs(views, tabs), keep);
    }

    /** One step of the close-all loop: the document tab i, which is not keep's, closes.
        The spared tabs, the widgets of the order still open and a current tab of keep's
        are what the loop carries over. */
    method CloseUnspared(i: nat, keep: int)
      requires Valid() && i < |views| && views[i].Doc? && tabs[i] != keep
      modifies this`views, this`tabs, this`current, this`order, this`closerEnabled, this`tabBarVisible
      ensures Valid()
      ensures views == old(views)[..i] + old(views)[i + 1..] && tabs == old(tabs)[..i] + old(tabs)[i + 1..]
      ensures SparedTabs(Pairs(views, tabs), keep) == SparedTabs(Pairs(old(views), old(tabs)), keep)
      ensures forall y :: y in tabs ==> y in old(tabs)
      ensures forall y :: y in order <==> y in old(order) && y in tabs
      ensures 0 <= old(current) && old(tabs)[old(current)] == keep ==> 0 <= current && tabs[current] == keep
    {
      ghost var vs, ts, c := views, tabs, current;
      ClosedTabNotSpared(vs, ts, i, keep);
      assert 0 <= c && ts[c] == keep ==> i != c;
      CloseTab(i);
      assert views == vs[..i] + vs[i + 1..] && tabs == ts[..i] + ts[i + 1..];
      RemoveAtKeepsDistinct(ts, i);
      if 0 <= c && ts[c] == keep {
        assert tabs[current] == ts[c];
      }
    }

    /** getDoc(i): the value of tab i, null past the end. */
    function GetDoc(i: nat): (r: Variant)
      reads this
      ensures i < |views| ==> r == views[i]
      ensures i >= |views| ==> r == Null
    {
      if i < |views| then views[i] else Null
    }

    /** getCurrentDoc: the value of the current tab, null when there is none. */
    function GetCurrentDoc(): (r: Variant)
      reads this
      requires -1 <= current < |views|
      ensures current == -1 ==> r == Null
      ensures current != -1 ==> r == views[current]
    {
      if current == -1 then Null else views[current]
    }
  }

  /** The corrected save loop of checkSavedAll: save in order, stop at the first failure. */
  method SaveEach(toSave: seq<nat>, fails: set<nat>) returns (ok: bool, saved: seq<nat>)
    ensures ok == NoneFails(toSave, fails)
    ensures saved == SavedUntilFailure(toSave, fails)
  {
    saved := [];
    var k := 0;
    while k < |toSave|
      invariant 0 <= k <= |toSave| && saved == toSave[..k]
      invariant forall m :: 0 <= m < k ==> toSave[m] !in fails
    {
      saved := saved + [toSave[k]];
      if toSave[k] in fails {
        assert toSave[k] in toSave;
        assert !NoneFails(toSave, fails);
        SavedPrefix(toSave, fails, k + 1);
        return false, saved;
      }
      k := k + 1;
    }
    assert saved == toSave;
    SavedAll(toSave, fails);
    return true, saved;
  }

  /** Whether checkSavedAll as written lets a close go ahead: only with nothing to save or
      the answer No, since its Yes branch returns false after saving. */
  function ProceedsAsWritten(toSave: seq<nat>, answer: Answer): bool
  {
    toSave == [] || answer == No
  }

  /** Whether checkSavedAll lets a close go ahead, with the corrected save loop. */
  function Proceeds(toSave: seq<nat>, answer: Answer, fails: set<nat>): bool
  {
    toSave == [] || answer == No || (answer == Yes && NoneFails(toSave, fails))
  }

  lemma SavedAll(toSave: seq<nat>, fails: set<nat>)
    requires forall m :: 0 <= m < |toSave| ==> toSave[m] !in fails
    ensures NoneFails(toSave, fails) && SavedUntilFailure(toSave, fails) == toSave
  {
    forall x | x in toSave
      ensures x !in fails
    {
      var m :| 0 <= m < |toSave| && toSave[m] == x;
    }
  }

  lemma SavedPrefix(toSave: seq<nat>, fails: set<nat>, k: nat)
    requires k <= |toSave| && forall m :: 0 <= m < k - 1 ==> toSave[m] !in fails
    requires k > 0 ==> toSave[k - 1] in fails
    ensures k > 0 ==> SavedUntilFailure(toSave, fails) == toSave[..k]
  {
    if k > 1 {
      assert toSave[1..][..k - 1] == toSave[1..k];
      SavedPrefix(toSave[1..], fails, k - 1);
    }
  }

  /** With the default isUnsaved (nothing unsaved) there is nothing to save and the check
      always lets the close go ahead. */
  lemma NothingUnsavedProceeds(views: seq<Variant>, except: int, answer: Answer, fails: set<nat>)
    ensures var none := seq(|views|, k => false);
      ToSave(views, none, except, 0) == [] && Proceeds(ToSave(views, none, except, 0), answer, fails)
  {
    NoneUnsavedFrom(views, seq(|views|, k => false), except, 0);
  }

  lemma {:induction false} NoneUnsavedFrom(views: seq<Variant>, unsaved: seq<bool>, except: int, from: nat)
    requires |unsaved| == |views| && from <= |views| && forall k :: 0 <= k < |unsaved| ==> !unsaved[k]
    ensures ToSave(views, unsaved, except, from) == []
    decreases |views| - from
  {
    if from < |views| {
      NoneUnsavedFrom(views, unsaved, except, from + 1);
    }
  }

  /** One document tab with unsaved data, Yes answered, the save succeeds: the check as
      written still refuses the close, the corrected one lets it go ahead. */
  lemma SavedYesStillRefused()
    ensures ToSave([Doc(1)], [true], -1, 0) == [0] && Proceeds([0], Yes, {})
  {
    assert ToSave([Doc(1)], [true], -1, 1) == [];
  }
}
