# GuiTools core, modelled in Dafny

This project models the logic at the centre of the GuiTools Qt widget library.

- **Commands** (`commands.dfy`): the command protocol. This covers:
  - a `UiFunction` (an action bound to a receiver's slot);
  - a `NamedFunction` (an action that searches its receiver by slot name around the focus widget);
  - the `ENABLED_IF` / `CHECKED_IF` guards at the head of a slot;
  - the two statics every command shares: the preparing flag and the current sender.

  `prepare()` asks the slot's guard whether the command is available. `execute()` runs the slot body only when the guard lets it through.
- **Hosts** (`hosts.dfy`): the objects that drive that protocol.
  - `AutoMenu` refreshes its commands when it is about to show.
  - `AutoToolBar` refreshes them on every tick of its timer.
  - `AutoMenuShortcut` and `AutoShortcut` refresh a command and execute it if it came out enabled.
- **Indentation** (`indentation.dfy`): the code editor's indentation arithmetic. This covers:
  - indentation levels with tab stops;
  - the scan for the position of a level;
  - the per-line edits of unindent, setIndentation and fixIndent, both as written and as evidently intended.
- **Editor** (`editor.dfy`): the code editor's state and text logic. This covers:
  - the do-while range edits;
  - Return with auto-indent and the Tab/Backtab/Return key decisions;
  - wrap-around case-insensitive find;
  - the back/forward navigation history;
  - breakpoints, line selection, and the line-number gutter's digit count.
- **DocTabs** (`doctabs.dfy`): `DocTabWidget`. It keeps a list of document values parallel to its tabs (null for a fixed tab) and a most-recently-shown list of widgets. Its operations are add, find/show, close, close-all and close-all-but-this, including the unsaved-data check.
- **Controller** (`controller.dfy`): the event filter that hands each event of a view to one overridable calldown.
- **Stretcher** (`stretcher.dfy`): `SplitBar`, `BottomStretcher` and `TopStretcher`. These cover the drag distance, the clamped heights and the tiling of body and handle.

Qt is abstracted throughout:

- **Object tree and meta-object system.** A `World` stands for them. It holds:
  - the focus widget;
  - each object's children;
  - each object's slots, each with the guard it evaluates to when called.
- **Document.** A non-empty sequence of lines. A position counts one separator after every line.
- **Text cursor.** It is not stored: its selection or line and column are parameters.
- **Dialog answers, "unsaved" flags, save results, digit width and grip size.** These are parameters. So is the value fixIndent's uninitialised flag holds on each line.

`Runtime` holds the two statics. It also keeps two records that contracts speak about:

- the `prepare()` calls in order;
- the slot bodies that ran.

## Model

| member | source | states |
|---|---|---|
| Commands.NormaliseSlot | NamedFunction.cpp:31-34 | The stored slot name is empty iff the name without its leading signal/slot digit is. Otherwise it ends in "()". It starts with that stripped name and adds at most two characters. A name already ending in "()" is kept as it is. |
| Commands.FirstWithSlot | NamedFunction.cpp:69-75 | The index of the first candidate offering the slot. No earlier candidate offers it. The result is the end of the list only when none does. |
| Commands.Locate | NamedFunction.cpp:56-78 | Without a focus widget nothing is found. A found receiver offers the slot, is one of the focus widget's children or the focus widget itself, and every candidate tried before it lacks the slot. When nothing is found, no candidate offers the slot. |
| Commands.LocatePrefersChildren | NamedFunction.cpp:69-75 | When a child of the focus widget offers the slot, the search ends at a child, never at the focus widget or above it. |
| Commands.BoundSlot | UiFunction.cpp:44-51 | `handle` reaches the explicitly connected slot, and only when the receiver offers it. |
| Commands.PrepareHandler | NamedFunction.cpp:49-79 | The slot prepare() calls exists. For a NamedFunction it is the slot on the receiver the search locates, and there is one exactly when the search succeeds. |
| Commands.ExecuteHandler | NamedFunction.cpp:81-92 | The slot execute() calls is one its receiver offers. |
| Commands.ExecuteBodies | NamedFunction.cpp:81-92 | execute() runs at most one slot body, and only when its guard's condition holds. A NamedFunction runs it on the target prepare() cached and on no other object. Without a target it runs nothing. |
| Commands.ExecuteAfterPrepareAgrees | UiFunction.cpp:58-74 | For a guarded slot, prepare() runs no body. execute() in the same state then runs the body exactly when prepare() left the command enabled. |
| Commands.ActivationRunsIffGuardPasses | AutoShortcut.cpp:38-43 | prepare() followed by execute()-if-enabled runs the slot body exactly once when its guard passes now, and never otherwise, whatever the command showed before. |
| Commands.Runtime.constructor | UiFunction.cpp:25-26 | The statics start with no pass in progress and no sender. |
| Commands.UiFunction.constructor | UiFunction.cpp:28-51 | A new UiFunction is enabled, not checkable and bound to the given receiver slot, if any. |
| Commands.UiFunction.ForSlot | NamedFunction.cpp:28-35 | A new NamedFunction is enabled, has no target and holds the normalised slot name. |
| Commands.UiFunction.Prepare | NamedFunction.cpp:49-79 | prepare() leaves preparing on and clears the sender it set. It records one prepare() call and runs only an unguarded slot's body. Enabled ends as the guard reports it, and false when no guard reports. Checkable and checked follow CHECKED_IF. A NamedFunction drops its target and caches exactly the receiver the search finds, so hasTarget() holds iff the search succeeded. A plain UiFunction (UiFunction.cpp:58-65) keeps its target. |
| Commands.UiFunction.PrepareImp | NamedFunction.cpp:37-47 | prepareImp(cur) reports whether cur has the slot, and caches cur as target exactly then. |
| Commands.UiFunction.CallFunction | NamedFunction.cpp:94-121 | callFunction is false iff the object lacks the slot, and then nothing changes. Otherwise it calls the slot with this command as sender and returns with the sender null. |
| Commands.UiFunction.Execute | NamedFunction.cpp:81-92 | execute() changes nothing in the command and runs exactly ExecuteBodies. A NamedFunction with a cached target, and a plain UiFunction (UiFunction.cpp:67-74), clear preparing and leave the sender null. A NamedFunction without a target changes nothing. |
| Commands.EnabledIfMacro | UiFunction.h:51-61 | While a sender is preparing, ENABLED_IF sets that sender's enabled flag to cond and stops the slot. Otherwise the body goes on exactly when cond holds. |
| Commands.CheckedIfMacro | UiFunction.h:64-75 | While preparing, CHECKED_IF sets enabled, marks the sender checkable, sets checked only when enabled, and stops the slot. Otherwise the body goes on exactly when enabled holds. |
| Commands.RunSlot | UiFunction.h:50-75 | A slot's guard, then its body when the guard lets it through. While preparing that is only an unguarded body. The statics are left as found. |
| Hosts.CommandsOf | AutoMenu.cpp:93-98 | Every command picked comes from a command action of the list. Every command action's command is picked. There are no more of them than actions. |
| Hosts.CommandsOfAppend | AutoMenu.cpp:93-98 | The commands of two runs of actions are those of the first run, then those of the second. |
| Hosts.CommandsOfAt | AutoMenu.cpp:93-98 | The command of action i sits right after the commands of the actions before it, and the commands of the actions after it follow: action order. |
| Hosts.RefreshOne | AutoMenu.cpp:96-97 | One prepare() call on a command: it is logged once, runs that command's unguarded slot body if any, and leaves the command in the state prepare() makes of its previous state. |
| Hosts.RefreshAt | AutoMenu.cpp:94-98 | One pass of the loop on command action i: prepare() runs on that command alone, and every other action's state is unchanged. |
| Hosts.PrepareEach | AutoMenu.cpp:93-98 | Calls prepare() once on every command, in action order, skipping other actions. Every command ends in the state its own prepare() makes of the state it had before the refresh: enabled as its guard reports, checkable once a CHECKED_IF guard ran, checked as a CHECKED_IF guard reports while enabled (otherwise kept), and for a named command the receiver found. A plain command keeps its target. |
| Hosts.ClimbToNonMenu | AutoMenu.cpp:127-137 | The first object of the chain that is a widget but neither a menu nor a menu bar. None when the chain ends first. |
| Hosts.MenuShortcut.constructor | AutoMenu.cpp:38-44 | The menu shortcut holds its item and key and uses the widget-with-children context. |
| Hosts.MenuShortcut.Event | AutoMenu.cpp:45-57 | A Shortcut event is consumed. It runs prepare() on the item, then execute() only if that left the item enabled. Other events go to the base class unchanged. |
| Hosts.SetShortCut | AutoMenu.cpp:139-152 | The key is always set on the action. A shortcut object exists iff the key is non-empty, creation was asked for, and a non-menu widget lies above the action. It is then attached to that widget. |
| Hosts.AutoMenu.constructor | AutoMenu.cpp:61-72 | No-popup mode is inherited from a parent AutoMenu, and a context menu is never in it. |
| Hosts.AutoMenu.Titled | AutoMenu.cpp:74-88 | No-popup mode is inherited from a parent AutoMenu, and set when the menu joins a main window's menu bar. |
| Hosts.AutoMenu.OnShow | AutoMenu.cpp:90-99 | Every command of the menu is refreshed once, in action order. |
| Hosts.AutoMenu.Register | AutoMenu.cpp:159-160 | The command is appended. A shortcut object is requested iff addAutoShortcut is set or the menu is in no-popup mode. |
| Hosts.AutoMenu.AddCommand | AutoMenu.cpp:165-172 | Appends a new enabled UiFunction bound to receiver and member, with the key set. A shortcut object is made under the rule of Register. |
| Hosts.AutoMenu.AddAutoCommand | AutoMenu.cpp:154-163 | Appends a new enabled NamedFunction with the normalised slot name, under the same shortcut rule. |
| Hosts.AutoToolBar.constructor | AutoToolBar.cpp:26-30 | The toolbar starts with no actions and its refresh timer running. |
| Hosts.AutoToolBar.Dispose | AutoToolBar.cpp:32-35 | The refresh timer is stopped. |
| Hosts.AutoToolBar.TimerEvent | AutoToolBar.cpp:37-49 | A tick of its own timer refreshes every command once, in action order. Any other timer changes nothing. |
| Hosts.AutoToolBar.Append | AutoToolBar.cpp:54-56 | The action is appended. Its shortcut is set only for a non-empty key. |
| Hosts.AutoToolBar.AddCommand | AutoToolBar.cpp:51-58 | Appends a new enabled UiFunction owned by the toolbar. The key is set only when non-empty. |
| Hosts.AutoToolBar.AddCommandWithIcon | AutoToolBar.cpp:60-66 | As the plain overload, and the new action carries the icon. |
| Hosts.AutoToolBar.AddAutoCommand | AutoToolBar.cpp:68-76 | Appends a new NamedFunction owned by the toolbar's parent widget. |
| Hosts.AutoToolBar.AddAutoCommandWithIcon | AutoToolBar.cpp:78-84 | As the plain overload, and the new action carries the icon. |
| Hosts.AutoShortcut.ForReceiver | AutoShortcut.cpp:27-31 | Wraps a new enabled UiFunction bound to receiver and member, in the widget-with-children context. |
| Hosts.AutoShortcut.ForMember | AutoShortcut.cpp:57-67 | Wraps a new enabled NamedFunction with the normalised slot name, in the widget-with-children context. |
| Hosts.AutoShortcut.OnActivated | AutoShortcut.cpp:38-43 | Runs prepare(), then execute() only if the command came out enabled. The bodies run are exactly ActivationBodies. |
| Hosts.AutoShortcut.Event | AutoShortcut.cpp:45-55 | A Shortcut event runs onActivated and is consumed. Other events go to the base class unchanged. |
| Controller.EventFilter | Controller.cpp:42-216 | Events for other objects are never consumed. A disabled view drops mouse and wheel events without calling anything. Every other listed kind calls its one calldown and returns its answer. Tab, Shift+Tab and Backtab without Ctrl/Alt first try the focus move, and skip keyPressEvent when it succeeds. ShortcutOverride and unlisted kinds are never consumed. |
| Controller.ConsumedOnlyByLastCalldown | Controller.cpp:86-106 | At most two calldowns are called, and the event is consumed only when the last one says so. |
| Controller.DefaultCalldownsConsumeNothing | Controller.h:46-70 | With the default calldowns, which all answer false, no event is consumed. |
| Stretcher.SplitBar.constructor | BottomStretcher.cpp:27-35 | Not hovering, no press recorded (-1), no rubber band. |
| Stretcher.SplitBar.EnterEvent | BottomStretcher.cpp:71-75 | The bar is hovered. |
| Stretcher.SplitBar.LeaveEvent | BottomStretcher.cpp:77-81 | The bar is not hovered. |
| Stretcher.SplitBar.MousePress | BottomStretcher.cpp:83-92 | Only the left button records the press coordinate along the bar's axis. |
| Stretcher.SplitBar.MouseMove | BottomStretcher.cpp:113-123 | A move with the left button held shows the rubber band. |
| Stretcher.SplitBar.MouseRelease | BottomStretcher.cpp:94-111 | A left-button release drops the rubber band and reports the distance from the press along the axis. Other buttons report nothing. |
| Stretcher.BottomHeight | BottomStretcher.cpp:170-176 | The new height is at least 100 and at least the dragged height, and it is one of the two. |
| Stretcher.TopHeight | BottomStretcher.cpp:209-215 | The new height is never below the handle's own height, nor below the dragged height, and it is one of the two. |
| Stretcher.HeightsFollowTheDrag | BottomStretcher.cpp:170-215 | Dragging the bottom handle further down, or the top handle further up, never leaves the stretcher smaller. |
| Stretcher.BodyReplaced | BottomStretcher.cpp:150-157 | The new body is always b. The old one is deleted iff it differs from b, exists, and this stretcher is its parent. |
| Stretcher.BottomStretcher.constructor | BottomStretcher.cpp:142-148 | Fixed height 200, no body, a vertical split bar. |
| Stretcher.BottomStretcher.OnHandleMoved | BottomStretcher.cpp:170-176 | The height becomes BottomHeight of the old height and the drag, and is reported. |
| Stretcher.BottomStretcher.SetBody | BottomStretcher.cpp:150-157 | The body and the widget deleted follow BodyReplaced. |
| Stretcher.BottomStretcher.ResizeEvent | BottomStretcher.cpp:159-168 | The body, when there is one, covers rows [0, h-grip). The handle covers rows [h-grip, h). Both span the full width. |
| Stretcher.BottomStretcher.HandleReleased | BottomStretcher.cpp:170-176 | A left release resizes to BottomHeight of the drag distance and reports the new height. Other buttons change nothing. |
| Stretcher.TopStretcher.constructor | BottomStretcher.cpp:178-186 | Fixed height 200, no body, a vertical split bar. |
| Stretcher.TopStretcher.OnHandleMoved | BottomStretcher.cpp:209-215 | The height becomes TopHeight of the old height and the drag, and is reported. |
| Stretcher.TopStretcher.SetBody | BottomStretcher.cpp:188-196 | The body and the widget deleted follow BodyReplaced. |
| Stretcher.TopStretcher.ResizeEvent | BottomStretcher.cpp:198-207 | The handle covers rows [0, grip). The body, when there is one, covers rows [grip, h). Both span the full width. |
| Stretcher.TopStretcher.HandleReleased | BottomStretcher.cpp:209-215 | A left release resizes to TopHeight of the drag distance and reports the new height. Other buttons change nothing. |
| Indentation.LeadingBlanks | CodeEditor.cpp:76-90 | The offset of the first character that is neither tab nor space. Every character before it is a blank. |
| Indentation.IndexFrom | CodeEditor.cpp:96-97 | The first occurrence of the pattern at or after k, or -1 exactly when there is none. |
| Indentation.CalcIndentsOfLine | CodeEditor.cpp:64-113 | `off` is the number of leading blanks, and onlyWs holds iff they are the whole line. The level is 0 when a pull-left rule fires, which happens before any division, so such a line needs no charPerTab. Otherwise it is their column count (tab = charPerTab, space = 1) divided by charPerTab. The flag is only ever set, never cleared. |
| Indentation.FirstNonSpace | CodeEditor.cpp:731-740 | The offset of the first non-space character. When the line holds only spaces it is the block length (text plus separator). |
| Indentation.FirstNwsPos | CodeEditor.cpp:731-740 | The scan loop of _firstNwsPos computes FirstNonSpace. |
| Indentation.ScanFrom | CodeEditor.cpp:46-62 | The scan divides by zero exactly on a blank when charPerTab is 0. Otherwise its answer lies within the line, and within the leading blanks when started there. |
| Indentation.PosFromIndent | CodeEditor.cpp:46-62 | calcPosFromIndent's position lies between the block start and the first non-blank. It fails only with charPerTab 0 on an indented line. |
| Indentation.CalcPosFromIndent | CodeEditor.cpp:46-62 | The loop of calcPosFromIndent computes PosFromIndent. |
| Indentation.PosFromIndentBelowLevel | CodeEditor.cpp:46-62 | When the requested level is above the line's own, the scan ends at the first non-blank, or at the block start for a line of blanks only. |
| Indentation.LevelCut | CodeEditor.cpp:46-62 | For the line's own level, the position found lies within the leading blanks. The blanks after it cover less than one level. |
| Indentation.UnindentAsWritten | CodeEditor.cpp:996-1001 | One line of unindent as written, with the swapped call. It fails, by dividing by zero, exactly when charPerTab is 0. |
| Indentation.SetIndentAsWritten | CodeEditor.cpp:1020-1023 | One line of setIndentation as written. It fails exactly when charPerTab is 0, or when the line is at level 0 but starts with a blank. |
| Indentation.FixIndentAsWritten | CodeEditor.cpp:584-599 | One line of fixIndent, where rmWs is the uninitialised flag's value. It fails, by dividing by zero, exactly when charPerTab is 0 and no pull-left rule fires. |
| Indentation.ApplyOp | CodeEditor.cpp:975-1024 | indent always succeeds and puts exactly one tab in front. Only a zero charPerTab, or setIndentation, can fail. fixIndent reads line j's own flag value. |
| Indentation.EditLine | CodeEditor.cpp:975-1024 | The loop bodies of the four range commands compute ApplyOp. |
| Indentation.ReindentSetsLevel | CodeEditor.cpp:1021-1023 | Replacing the blanks of the current level by n tabs gives a line of level n with the same text after its blanks. |
| Indentation.UnindentLineLowersLevel | CodeEditor.cpp:996-1001 | Corrected unindent: the level drops by one (level 0 is kept) and the text is unchanged. |
| Indentation.SetIndentLineSetsLevel | CodeEditor.cpp:1020-1023 | Corrected setIndentation(n): the line ends at level n with its text unchanged. |
| Indentation.FixIndentLineNormalises | CodeEditor.cpp:584-599 | Corrected fixIndent keeps the text after the blanks and leaves only tabs as blanks. A line with text ends at its level, but at least 1, or at level 0 when a pull-left rule fires. A line of blanks becomes empty. A line without leading blanks stays as it is. |
| Indentation.SwapHarmlessWithoutTabs | CodeEditor.cpp:1000 | On lines without tabs the two argument orders of calcPosFromIndent agree. |
| Indentation.UnindentAsWrittenDeepens | CodeEditor.cpp:1000 | Unindent as written turns six tabs (charPerTab 4) into seven. The corrected one gives five. |
| Indentation.SetIndentAsWrittenDividesByZero | CodeEditor.cpp:1022 | setIndentation as written divides by zero on " x". The corrected one sets the level. |
| Indentation.FixIndentAsWrittenStrips | CodeEditor.cpp:586-597 | With the uninitialised flag true, fixIndent strips "  x" to "x". The corrected one gives "\tx". |
| Indentation.CommentLineNeedsNoTabWidth | CodeEditor.cpp:97-112 | "  // c" is pulled to "// c" with charPerTab 0 as with 4, while "  x" with charPerTab 0 divides by zero. |
| Editor.FindBlock | CodeEditor.cpp:973 | findBlock(pos) is the line whose span, from its start to its end, holds pos. |
| Editor.EditLines | CodeEditor.cpp:975-980 | The do-while from the first line: every line it reaches carries the line edit, and no other line changes. It reaches a later line when its start in the edited text is below selEnd. When an edit divides by zero it stops there, with only the lines before edited. |
| Editor.IndexOfNoCase | CodeEditor.cpp:550 | The first case-insensitive match at or after `from`, or -1 exactly when there is none. |
| Editor.FirstHit | CodeEditor.cpp:548-557 | A hit is a match at or after the start point. |
| Editor.FirstHitIsFirst | CodeEditor.cpp:548-557 | Every match at or after the start point is found, and none comes before the hit. |
| Editor.FindFrom | CodeEditor.cpp:534-571 | What find selects is a match. |
| Editor.FindFromComplete | CodeEditor.cpp:544-563 | Find misses nothing. When a match exists after the start point, or anywhere when the search did not start on the first line, something is found. |
| Editor.RemoveAll | CodeEditor.cpp:712 | removeAll drops every entry equal to the location and keeps the count of every other. |
| Editor.PushedPutsOnTop | CodeEditor.cpp:705-714 | After a push the location is last and occurs exactly once. The history keeps no repeats, and every other entry keeps its count. |
| Editor.PushedKeepsOrder | CodeEditor.cpp:705-714 | A push appends a new location, and moves a listed one from its place to the end. All other entries keep their order. |
| Editor.BackThenForwardRestores | CodeEditor.cpp:685-703 | When the entry gone back from lies within its line, going back and then forward restores both histories: the cursor lands exactly on that entry, and it is what goes back on top. |
| Editor.BackThenForwardMovesStaleEntry | CodeEditor.cpp:685-703 | An entry whose column is past the end of its (since shortened) line does not come back: on ["ab", "cd"] the entry (0, 4) returns as (1, 1), so the back history differs. |
| Editor.CursorLanding | CodeEditor.cpp:279-284 | The cursor lands at the block and column of block(line).position() + col when that position lies in the document (QTextCursor::setPosition). A position outside it is refused, and the cursor stays where it was. |
| Editor.CursorLandingInLine | CodeEditor.cpp:279-284 | A column within its line is exactly where the cursor lands. |
| Editor.CursorLandingPastLineEnd | CodeEditor.cpp:279-284 | On ["ab", "cd"], line 0 column 4 lands at line 1 column 1, and line 1 column 3 is past the document, so the cursor stays. |
| Editor.SelectLines | CodeEditor.cpp:345-364 | Lines outside the document select nothing. Otherwise the selection runs from the start of the upper line to the end of the lower line's text. It is anchored on the `from` side, and a single line is selected right to left. |
| Editor.LeadingSpaces | CodeEditor.cpp:796-797 | The copied indentation is a prefix of the line, all white space, and stops at the first non-space. |
| Editor.SplitWithIndent | CodeEditor.cpp:786-801 | Return keeps every line before the selection and after it. It keeps the text before the selection start as one line. The next line is the leading spaces of that text followed by the text after the selection end. The line count changes by one minus the lines the selection spans. |
| Editor.KeyDispatch | CodeEditor.cpp:752-803 | Ctrl+Tab and Ctrl+Backtab are passed on, and only they. No action that edits is taken in read-only mode. Tab indents iff it has no modifiers, the editor is writable, and there is a selection or the cursor is in the indentation. Backtab unindents iff the same holds, except that only Control is excluded. Return/Enter is handled iff the editor is writable: auto-indented without modifiers, swallowed with one. |
| Editor.DigitCount | CodeEditor.cpp:248-253 | The digit count d of max(1, blocks) satisfies 10^(d-1) <= n < 10^d. |
| Editor.CodeEditor.constructor | CodeEditor.cpp:190-229 | An empty document with 4 columns per tab. Nothing is available, no marker is set, the histories and breakpoints are empty, and the line numbers follow the setting. |
| Editor.CodeEditor.OnUndoAvail | CodeEditor.h:139 | isUndoAvailable answers the value last passed. |
| Editor.CodeEditor.OnRedoAvail | CodeEditor.h:140 | isRedoAvailable answers the value last passed. |
| Editor.CodeEditor.OnCopyAvail | CodeEditor.h:141 | isCopyAvailable answers the value last passed. |
| Editor.CodeEditor.SetCharPerTab | CodeEditor.cpp:907-911 | The tab width becomes the given 8-bit value. |
| Editor.CodeEditor.SetPositionMarker | CodeEditor.cpp:326-331 | The execution-position marker becomes the given line, where -1 means none. |
| Editor.CodeEditor.TextLine | CodeEditor.cpp:300-306 | The text of line i, and empty outside the document. |
| Editor.CodeEditor.HandleAreaWidth | CodeEditor.cpp:243-258 | 10 without line numbers. Otherwise 5 plus one digit width per decimal digit of the block count. |
| Editor.CodeEditor.EditRange | CodeEditor.cpp:965-982 | The range loop on the document, from the line holding the selection start, as EditLines states it. |
| Editor.CodeEditor.Indent | CodeEditor.cpp:965-982 | One tab in front of every line the loop reaches, and nothing else changes. The test uses selEnd captured before the loop. |
| Editor.CodeEditor.Unindent | CodeEditor.cpp:984-1006 | With charPerTab > 0 every reached line gets the as-written unindent. With 0 the first line divides by zero and nothing changes. |
| Editor.CodeEditor.SetIndentation | CodeEditor.cpp:1008-1027 | Every reached line gets the as-written setIndentation edit, up to the first line where it divides by zero. |
| Editor.CodeEditor.FixIndent | CodeEditor.cpp:573-603 | Every reached line gets the as-written fixIndent edit with that line's own flag value. With charPerTab > 0 this always completes. With 0 it stops at the first reached line that no pull-left rule takes, with only the lines before edited. |
| Editor.CodeEditor.HandleIndent | CodeEditor.cpp:498-503 | While preparing it reports "not read-only" and edits nothing. Otherwise it indents exactly when the editor is writable. |
| Editor.CodeEditor.HandleUnindent | CodeEditor.cpp:505-510 | While preparing it reports "not read-only". Otherwise it unindents exactly when the editor is writable and charPerTab > 0. With charPerTab 0 the lines stay as they are. |
| Editor.CodeEditor.HandleSetIndent | CodeEditor.cpp:512-521 | While preparing it reports "not read-only". Otherwise it sets the dialog's level (0..20) only when the dialog was accepted. |
| Editor.CodeEditor.HandleFixIndent | CodeEditor.cpp:523-532 | While preparing it reports "not read-only" and changes nothing. Otherwise, when writable, it runs fixIndent as FixIndent states it. When read-only nothing changes. |
| Editor.CodeEditor.NewlineWithIndent | CodeEditor.cpp:786-801 | The document becomes SplitWithIndent: the selection is replaced by a line break, and the new line starts with the leading spaces of the line before it. |
| Editor.CodeEditor.KeyPress | CodeEditor.cpp:752-803 | The key's action is KeyDispatch on the cursor's state. An indent, unindent or auto-indented newline edits as its operation states. Every other key leaves the text unchanged. |
| Editor.CodeEditor.Find | CodeEditor.cpp:534-571 | The hit is FindFrom from the top, or from just after the cursor. The back history becomes AfterFind: a hit pushes the location of the match's end, and no hit changes nothing. |
| Editor.CodeEditor.MoveToMatchEnd | CodeEditor.cpp:566 | Moving the cursor to the end of a match lands it at that line and column, and that location is pushed. |
| Editor.CodeEditor.SearchFrom | CodeEditor.cpp:544-563 | The wrap-around search loop computes FindFrom. |
| Editor.CodeEditor.SetCursorPosition | CodeEditor.cpp:276-292 | For a line inside the document, onUpdateLocation (CodeEditor.cpp:414-418) pushes where the cursor lands, as CursorLanding gives it. Otherwise nothing changes. |
| Editor.CodeEditor.PushLocation | CodeEditor.cpp:705-714 | Nothing changes while locked. Otherwise the history becomes Pushed, and it keeps no repeats. |
| Editor.CodeEditor.HandleGoBack | CodeEditor.cpp:685-694 | Enabled iff there is more than one back entry. The top entry moves to the forward history and is not pushed again. |
| Editor.CodeEditor.HandleGoForward | CodeEditor.cpp:696-703 | Enabled iff there is a forward entry. It is popped. For an entry on a line inside the document, the place the cursor lands there is pushed onto the back history. |
| Editor.CodeEditor.HandleFindAgain | CodeEditor.cpp:472-476 | Enabled iff a search text is set. It then searches on from the cursor. The back history becomes AfterFind of the hit, and is unchanged while preparing. |
| Editor.CodeEditor.HandleFind | CodeEditor.cpp:459-470 | Always enabled. On cancel nothing changes. Otherwise the answer becomes the search text, searched from the top when nothing was selected. The back history becomes AfterFind of the hit, and is unchanged while preparing. |
| Editor.CodeEditor.AddBreakPoint | CodeEditor.cpp:1082-1086 | The line joins the breakpoint set. |
| Editor.CodeEditor.RemoveBreakPoint | CodeEditor.cpp:1088-1092 | The line leaves the breakpoint set. |
| Editor.CodeEditor.ToggleBreakPoint | CodeEditor.cpp:1094-1115 | The line's membership flips, and no other line changes. The line is written to `out`. The result is true exactly when the line was added. |
| Editor.CodeEditor.ClearBreakPoints | CodeEditor.cpp:1117-1121 | The breakpoint set is empty. |
| Editor.IndentAsWrittenSkipsLastLine | CodeEditor.cpp:975-980 | With "a","b","c" all selected, indent as written leaves "c" untabbed, although "c" starts inside the selection. |
| Editor.IndentTracked | CodeEditor.cpp:965-982 | The corrected indent: the selection end follows the tabs inserted before it, as a QTextCursor holding it would. It keeps the number of lines; which lines it tabs is stated by IndentTrackedCoversSelection. |
| Editor.IndentTrackedCoversSelection | CodeEditor.cpp:965-982 | Indent with the selection end following the inserted tabs tabs exactly the line holding the selection start and every later line starting inside the selection. |
| Editor.IndentTrackedCoversLastLine | CodeEditor.cpp:965-982 | On the same three lines, the corrected indent tabs all three. |
| Editor.FixIndentFlagCarriedOver | CodeEditor.cpp:584-597 | On "  // c", "  x" with charPerTab 4, if the flag still holds true on the second line, fixIndent gives "// c", "x". |
| Editor.FixIndentWithoutTabWidth | CodeEditor.cpp:584-599 | On the same lines with charPerTab 0, fixIndent pulls the comment line left and then stops at "  x", which it leaves as it is. |
| DocTabs.IndexOf | DocTabWidget.cpp:140 | The first index of the widget, or -1 exactly when it is not listed. |
| DocTabs.MoveToEnd | DocTabWidget.cpp:135-147 | The reordering of onTabChanged computes TabChanged. |
| DocTabs.TabChangedMovesToEnd | DocTabWidget.cpp:133-149 | The widget of the new tab ends last. The same widgets remain without repeats, and the others keep their order. |
| DocTabs.TabChangedKeepsValid | DocTabWidget.cpp:133-149 | The order stays free of repeats and within the tabs' widgets. |
| DocTabs.ToSave | DocTabWidget.cpp:160-168 | The indices offered for saving are exactly the document tabs, other than the excepted one, that report unsaved data, in increasing order. |
| DocTabs.SavedUntilFailure | DocTabWidget.cpp:175-179 | The saves run are a prefix of the list. All but the last succeeded, the last failed when the prefix is short, and the whole list runs when none fails. |
| DocTabs.DocTabWidget.constructor | DocTabWidget.cpp:27-42 | No tabs and the closer disabled. The tab bar is hidden when single tabs are hidden. |
| DocTabs.DocTabWidget.OnTabChanged | DocTabWidget.cpp:133-156 | The order becomes TabChanged. The closer is enabled iff the current tab holds a document, and the tab bar shows iff there is more than one tab (when single tabs are hidden). |
| DocTabs.DocTabWidget.SetCurrentIndex | DocTabWidget.cpp:32 | Making another tab current runs onTabChanged. The same tab changes nothing else. |
| DocTabs.DocTabWidget.AddDoc | DocTabWidget.cpp:49-104 | addDoc, and addFixed with a null value. One entry is appended to both lists and the widget to the order. The new tab is current and its index is returned. The closer is enabled iff the new tab holds a document. |
| DocTabs.DocTabWidget.FindDoc | DocTabWidget.cpp:69-79 | The first index holding an equal value, or -1 exactly when none does. |
| DocTabs.DocTabWidget.ShowDoc | DocTabWidget.cpp:61-67 | Returns findDoc's answer, and makes that tab current only when found. |
| DocTabs.DocTabWidget.CloseTab | DocTabWidget.cpp:200-220 | Nothing changes for -1, an index past the end, or a fixed tab. Otherwise exactly that entry leaves both lists and its widget leaves the order, and Qt's choice of the new current tab follows. When that choice is a change of tab, onTabChanged moves the new current widget to the end of the order and updateState sets the closer and the tab bar. The order keeps exactly its widgets that are still open. |
| DocTabs.DocTabWidget.DropFromOrder | DocTabWidget.cpp:209-215 | The widget leaves the order, and nothing else changes in it. |
| DocTabs.DocTabWidget.CheckSavedAllAsWritten | DocTabWidget.cpp:158-188 | As written: with something unsaved, Yes saves all and still answers false. No answers true and Cancel false. With nothing unsaved the answer is true. |
| DocTabs.DocTabWidget.CheckSavedAll | DocTabWidget.cpp:158-188 | Corrected: Yes saves in order up to the first failure, and answers true iff none fails. |
| DocTabs.DocTabWidget.CollectToSave | DocTabWidget.cpp:160-168 | The first loop of checkSavedAll computes ToSave. |
| DocTabs.DocTabWidget.OnCloseDoc | DocTabWidget.cpp:106-131 | Enabled iff the current tab holds a document. It closes that tab unless it is unsaved and the answer is Cancel, or Yes with a failed save. Then the tab to its right, or the new last one, is current and moves to the end of the order, and the closer and the tab bar are updated. Otherwise the tabs, the current tab and the order are unchanged. |
| DocTabs.DocTabWidget.OnCloseAll | DocTabWidget.cpp:232-246 | Enabled iff there is a tab. The check as written agrees only with nothing unsaved or the answer No. Then exactly the fixed tabs remain, in their order, and the order keeps exactly its widgets still open. Otherwise the tabs, the current tab and the order are unchanged. |
| DocTabs.DocTabWidget.OnCloseAllButThis | DocTabWidget.cpp:248-264 | Enabled iff the current tab holds a document. The check as written agrees only with nothing unsaved outside it or the answer No. Then exactly the fixed tabs and the current one remain, in their order, that tab is still current, and the order keeps exactly its widgets still open. Otherwise the tabs, the current tab and the order are unchanged. |
| DocTabs.DocTabWidget.CloseAllExcept | DocTabWidget.cpp:238-245 | The close-all loop leaves exactly the spared tabs, in their order. The order keeps exactly its widgets still open. A current tab that is spared stays current. |
| DocTabs.DocTabWidget.CloseUnspared | DocTabWidget.cpp:241-244 | One pass of the loop that closes tab i: the spared tabs are unchanged, and no widget opens. The order keeps exactly its widgets still open. A current tab that is spared stays current. |
| DocTabs.DocTabWidget.GetDoc | DocTabWidget.cpp:284-290 | The value of tab i, and null past the end. |
| DocTabs.DocTabWidget.GetCurrentDoc | DocTabWidget.cpp:276-282 | The current tab's value, and null when no tab is current. |
| DocTabs.SaveEach | DocTabWidget.cpp:175-179 | The corrected save loop: ok iff no save fails, and the saves run are SavedUntilFailure. |
| DocTabs.NothingUnsavedProceeds | DocTabWidget.cpp:190-193 | With the default isUnsaved nothing is offered, and the check lets every close go ahead. |
| DocTabs.SavedYesStillRefused | DocTabWidget.cpp:175-179 | One unsaved document, Yes, and a successful save: it is offered for saving. So the check as written refuses the close, while the corrected check lets it go ahead. |

## Left out

- The Qt meta-object system is not modelled. This covers `indexOfSlot`, `invokeMethod`, `connect` and the private-Qt branch of `callFunction`. Slots and their guards are given by the `World`. A failing `invokeMethod` (only a warning in the source) is not modelled.
- The search variant that climbs from the focus widget up to the window is not modelled. It is compiled out by default.
- Warnings written with `qWarning` are not modelled.
- Painting, pixel metrics and the rubber band's geometry are not modelled. The split bar's grip size and the width of a digit are parameters.
- Dialogs, settings, the clipboard, printing and file I/O are not modelled. Dialog answers, "unsaved" flags and save results are parameters.
- Timers and latencies are not modelled. A toolbar tick is an event carrying a timer id, and the timer's floating-point interval is left out.
- Object lifetimes are not modelled. This covers `deleteLater`, the menu shortcut's deletion with its item, and AutoShortcut's destructor deleting its command. Deletion shows only as the value SetBody returns.
- Thread safety of the shared sender is not modelled. The model runs one pass at a time.
- Editor.Fold and Indentation.IsSpace are ASCII-only. Case folding and `QChar::isSpace` cover only ASCII.
- Editor.CodeEditor.KeyPress: for keys left to `QPlainTextEdit::keyPressEvent`, the model leaves the text unchanged. The base class's own typing is not modelled.
- Editor.SelectLines takes natural line numbers. Negative line numbers are not modelled.
- Editor.CodeEditor.SetCursorPosition does not model the cursor itself or scrolling. The cursor's location before the move is a parameter, and only the history update that `onUpdateLocation` makes is modelled.
- Editor.CodeEditor.ToggleBreakPoint takes the cursor line as a parameter. The source's "-1 becomes 0" step is not modelled, because a cursor line is never negative.
- Editor.CodeEditor.Unindent, SetIndentation and FixIndent model division by zero (charPerTab 0) as a stop, reported as `ok == false`. C++ leaves that case undefined. In fixIndent a line that a pull-left rule takes is edited before any division, so the stop comes at the first other line.
- DocTabs.DocTabWidget.AddDoc requires a widget not already in a tab. Qt's handling of a widget added twice is not modelled.
- DocTabs.DocTabWidget.CloseTab requires `i >= -1`. The source would index out of range below that.
- DocTabs.DocTabWidget.GetDoc takes a natural index. The source indexes out of range for a negative one, and that case is not modelled.
- DocTabs.DocTabWidget.CloseTab follows Qt's removeTab by selecting the tab to the right, or the new last tab. This is Qt's default selection behaviour, assumed here.
- DocTabs.DocTabWidget.CloseAllExcept states which widgets the activation order holds after the loop, not their sequence. Each close before the current tab moves the current widget to the end. The closer and tab-bar state after the loop are not stated, and neither is the tab that ends current when the current tab is not spared. Each CloseTab step states all of this; composing it over the loop is not done.
- DocTabs.DocTabWidget.OnCloseAll states the order after closing only as far as CloseAllExcept does. It does not state the current tab, the closer or the tab bar after closing.
- DocTabs.DocTabWidget.OnCloseAllButThis states the order after closing only as far as CloseAllExcept does. It does not state the closer or the tab bar after closing.
- Layout requests are not modelled. This covers `updateGeometry` in `TopStretcher::setBody` and in both `onHandleMoved` slots.
- Stretcher.BottomHeight and Stretcher.TopHeight take the handle's height to be its grip size. That is what `resizeEvent` gives the handle.
- Not modelled: `onDocSelect`/`DocSelector`, `showWidget`, `onSelectDoc`, `getCurrentTab`, `AutoMenu::registerPopup`, `connectPopup`, `onContextRequest`, and the link handling of the editor's mouse events.
- The remaining editor slots are not modelled. These are undo, redo, cut, copy, paste, select all, goto, print, PDF export, show line numbers, font, load and save. They are one ENABLED_IF over a flag and a call into Qt, the same shape as HandleIndent.

## Findings

| source | as written | input that shows it | evidently intended | confidence | as-written member | corrected member |
|---|---|---|---|---|---|---|
| CodeEditor.cpp:1000 | unindent calls `calcPosFromIndent(b, d_charPerTab, indent)`, but the parameters are `(block, indent, charPerTab)`. The scan looks for level charPerTab in units of `indent` columns. | "\t\t\t\t\t\tx" with charPerTab 4: level 6, and the line ends with seven tabs | The line's current level is replaced by one level less. | not executed | Indentation.UnindentAsWritten, Indentation.UnindentAsWrittenDeepens | Indentation.UnindentLine, Indentation.UnindentLineLowersLevel |
| CodeEditor.cpp:1022 | setIndentation makes the same swapped call. For a line at level 0 the scan divides by `indent` == 0 at its first blank. | " x" with charPerTab 4 | The line ends at the requested level. | not executed | Indentation.SetIndentAsWritten, Indentation.SetIndentAsWrittenDividesByZero | Indentation.SetIndentLine, Indentation.SetIndentLineSetsLevel |
| CodeEditor.cpp:586-597 | fixIndent declares `rmWs` inside the loop without a value, once per line, and `calcIndentsOfLine` only ever sets it. When no pull-left rule fires, `if( !rmWs )` reads whatever the flag holds on that line, for instance true left over from a comment line before it. | "  x" with charPerTab 4, when the flag happens to hold true: the line becomes "x" | A level-0 indented line gets one tab ("\tx"). | not executed | Indentation.FixIndentAsWritten, Indentation.FixIndentAsWrittenStrips, Editor.FixIndentFlagCarriedOver | Indentation.FixIndentLine, Indentation.FixIndentLineNormalises |
| CodeEditor.cpp:980 | The do-while compares each block's current position with a `selEnd` read before any tab was inserted. The inserted tabs push later lines past it. | lines "a","b","c", selection 0..5: "c" starts at 4 but is skipped | Every line that starts inside the selection is indented. | not executed | Editor.CodeEditor.Indent, Editor.IndentAsWrittenSkipsLastLine | Editor.IndentTracked, Editor.IndentTrackedCoversSelection, Editor.IndentTrackedCoversLastLine |
| DocTabWidget.cpp:176-179 | The `foreach` has no braces, so `return false` follows the loop and not the failed save. Answering Yes always refuses the close. | one document tab with unsaved data, Yes, the save succeeds | Refuse only when a save fails, and stop at it. | not executed | DocTabs.DocTabWidget.CheckSavedAllAsWritten, DocTabs.SavedYesStillRefused | DocTabs.DocTabWidget.CheckSavedAll, DocTabs.SaveEach |

The range commands of the editor (Indent, Unindent, SetIndentation, FixIndent) model the source as written. The corrected line edits and the corrected indent stand beside them, with their properties proved. The close-all slots call the check as written, `CheckSavedAllAsWritten`, so they close nothing after Yes. The corrected `CheckSavedAll` stands beside it, with its behaviour proved.
