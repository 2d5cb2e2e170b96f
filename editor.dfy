/**
  The code editor's state and text logic. The document is a sequence of lines
  (QTextDocument blocks, never empty); a position is an offset into the text in
  which every block is followed by one separator. The Qt text cursor is not
  stored: its anchor and position, or its line and column, are parameters of
  the operations that read it, and operations that move it return where to.
*/
module Editor {
  import opened Wrappers
  import opened Commands
  import opened Indentation

  // ---------------------------------------------------------------------------
  // Positions in the document
  // ---------------------------------------------------------------------------

  /** QTextBlock::position() of block k. */
  function BlockPos(lines: seq<string>, k: nat): nat
    requires k <= |lines|
  {
    if k == 0 then 0 else BlockPos(lines, k - 1) + |lines[k - 1]| + 1
  }

  /** QTextDocument::characterCount(): the text and one separator per block. */
  function DocLength(lines: seq<string>): nat
  {
    BlockPos(lines, |lines|)
  }

  lemma {:induction false} BlockPosGrows(lines: seq<string>, i: nat, j: nat)
    requires i < j <= |lines|
    ensures BlockPos(lines, i) + |lines[i]| + 1 <= BlockPos(lines, j)
    decreases j - i
  {
    if i + 1 < j {
      BlockPosGrows(lines, i + 1, j);
    }
  }

  lemma {:induction false} BlockPosPrefix(a: seq<string>, b: seq<string>, k: nat)
    requires k <= |a| && k <= |b| && a[..k] == b[..k]
    ensures BlockPos(a, k) == BlockPos(b, k)
  {
    if k > 0 {
      assert a[k - 1] == a[..k][k - 1];
      assert a[..k - 1] == a[..k][..k - 1];
      assert b[..k - 1] == b[..k][..k - 1];
      BlockPosPrefix(a, b, k - 1);
    }
  }

  function FindBlockFrom(lines: seq<string>, pos: nat, k: nat): (r: nat)
    requires k < |lines| && BlockPos(lines, k) <= pos < DocLength(lines)
    ensures k <= r < |lines| && BlockPos(lines, r) <= pos < BlockPos(lines, r + 1)
    decreases |lines| - k
  {
    if pos < BlockPos(lines, k + 1) then k
    else FindBlockFrom(lines, pos, k + 1)
  }

  /** QTextDocument::findBlock(pos): the block holding a cursor position. */
  function FindBlock(lines: seq<string>, pos: nat): (r: nat)
    requires lines != [] && pos < DocLength(lines)
    ensures r < |lines| && BlockPos(lines, r) <= pos <= BlockPos(lines, r) + |lines[r]|
  {
    FindBlockFrom(lines, pos, 0)
  }

  /** The column of a cursor position within its block. */
  function ColumnOf(lines: seq<string>, pos: nat): (c: nat)
    requires lines != [] && pos < DocLength(lines)
    ensures c <= |lines[FindBlock(lines, pos)]|
  {
    pos - BlockPos(lines, FindBlock(lines, pos))
  }

  /** Where QTextCursor::setPosition(block(line).position() + col) leaves a cursor that
      stood at `at`: a position inside the document is entered as its block and column,
      and one outside it is refused, so the cursor stays where it was. */
  function CursorLanding(lines: seq<string>, line: int, col: int, at: Location): (r: Location)
    requires 0 <= line < |lines|
    ensures var p := BlockPos(lines, line) + col;
      if 0 <= p < DocLength(lines)
      then 0 <= r.line < |lines| && 0 <= r.col <= |lines[r.line]| && BlockPos(lines, r.line) + r.col == p
      else r == at
  {
    var p := BlockPos(lines, line) + col;
    if 0 <= p < DocLength(lines) then Location(FindBlock(lines, p), ColumnOf(lines, p)) else at
  }

  /** Within its line a column is where the cursor lands. */
  lemma CursorLandingInLine(lines: seq<string>, line: nat, col: nat, at: Location)
    requires line < |lines| && col <= |lines[line]|
    ensures CursorLanding(lines, line, col, at) == Location(line, col)
  {
    var p := BlockPos(lines, line) + col;
    if line + 1 < |lines| {
      BlockPosGrows(lines, line, |lines|);
    }
    assert p < DocLength(lines);
    var r := CursorLanding(lines, line, col, at);
    if r.line < line {
      BlockPosGrows(lines, r.line, line);
    } else if r.line > line {
      BlockPosGrows(lines, line, r.line);
    }
  }

  /** A column past the end of its line lands in a later line, and a position past the end
      of the document leaves the cursor where it was. */
  lemma CursorLandingPastLineEnd(at: Location)
    ensures CursorLanding(["ab", "cd"], 0, 4, at) == Location(1, 1)
    ensures CursorLanding(["ab", "cd"], 1, 3, at) == at
  {
    var lines := ["ab", "cd"];
    assert BlockPos(lines, 1) == 3;
    assert DocLength(lines) == 6;
    var r := CursorLanding(lines, 0, 4, at);
    if r.line == 0 {
      assert false;
    }
  }

  // ---------------------------------------------------------------------------
  // The line-range loop shared by indent, unindent, setIndentation and fixIndent
  // ---------------------------------------------------------------------------

  /** Whether the do-while over lines, started at `first`, gets to line j: the first line
      always, a later one when its start in the edited document is below selEnd. */
  predicate Reached(lines: seq<string>, first: nat, selEnd: nat, j: nat)
    requires j <= |lines|
  {
    j == first || (first < j && BlockPos(lines, j) < selEnd)
  }

  /** The loop ran to its end: every line it reached carries the edit, no other changed. */
  predicate RangeEdited(before: seq<string>, after: seq<string>, first: nat, selEnd: nat, op: LineOp, cpt: nat)
  {
    && |after| == |before| && first < |before|
    && forall j :: 0 <= j < |before| ==>
         if Reached(after, first, selEnd, j) then ApplyOp(op, before[j], cpt, j) == Some(after[j])
         else after[j] == before[j]
  }

  /** The loop stopped at line c, where the source divides by zero: the lines before it
      carry the edit, no other changed. */
  predicate RangeStopped(before: seq<string>, after: seq<string>, first: nat, selEnd: nat, op: LineOp, cpt: nat)
  {
    && |after| == |before|
    && exists c :: first <= c < |before| && Reached(after, first, selEnd, c) && ApplyOp(op, before[c], cpt, c).None? &&
         forall j :: 0 <= j < |before| ==>
           if first <= j < c then ApplyOp(op, before[j], cpt, j) == Some(after[j]) else after[j] == before[j]
  }

  /** Lines first..k-1 carry the edit, all others are as before. */
  predicate EditedUpTo(before: seq<string>, cur: seq<string>, first: nat, k: nat, op: LineOp, cpt: nat)
  {
    && |cur| == |before|
    && forall j :: 0 <= j < |before| ==>
         if first <= j < k then ApplyOp(op, before[j], cpt, j) == Some(cur[j]) else cur[j] == before[j]
  }

  /** Editing line k moves the edited range on by one and leaves the start of line k where
      it was. */
  lemma EditedStep(before: seq<string>, cur: seq<string>, first: nat, k: nat, op: LineOp, cpt: nat, v: string)
    requires EditedUpTo(before, cur, first, k, op, cpt) && first <= k < |cur|
    requires ApplyOp(op, cur[k], cpt, k) == Some(v)
    ensures EditedUpTo(before, cur[k := v], first, k + 1, op, cpt)
    ensures BlockPos(cur[k := v], k) == BlockPos(cur, k)
  {
    assert cur[..k] == cur[k := v][..k];
    BlockPosPrefix(cur, cur[k := v], k);
  }

  /** The loop of indent, unindent, setIndentation and fixIndent, from line first on: edit
      the line, and go on to the next while that one starts inside the selection. It stops
      at a line whose edit divides by zero. */
  method EditLines(op: LineOp, lines: seq<string>, first: nat, selEnd: nat, cpt: nat) returns (ok: bool, cur: seq<string>)
    requires first < |lines|
    ensures ok ==> RangeEdited(lines, cur, first, selEnd, op, cpt)
    ensures !ok ==> RangeStopped(lines, cur, first, selEnd, op, cpt)
  {
    cur := lines;
    var k := first;
    while true
      invariant first <= k < |cur|
      invariant Reached(cur, first, selEnd, k)
      invariant EditedUpTo(lines, cur, first, k, op, cpt)
      decreases |cur| - k
    {
      var r := EditLine(op, cur[k], cpt, k);
      if r.None? {
        StoppedAt(lines, cur, first, k, selEnd, op, cpt);
        return false, cur;
      }
      EditedStep(lines, cur, first, k, op, cpt, r.value);
      cur := cur[k := r.value];
      if k + 1 < |cur| && BlockPos(cur, k + 1) < selEnd {
        k := k + 1;
      } else {
        EditedToEnd(lines, cur, first, k, selEnd, op, cpt);
        return true, cur;
      }
    }
  }

  /** The loop stops at line k because the edit of line k fails. */
  lemma StoppedAt(before: seq<string>, cur: seq<string>, first: nat, k: nat, selEnd: nat, op: LineOp, cpt: nat)
    requires EditedUpTo(before, cur, first, k, op, cpt) && first <= k < |cur|
    requires k <= |cur| && Reached(cur, first, selEnd, k) && ApplyOp(op, cur[k], cpt, k).None?
    ensures RangeStopped(before, cur, first, selEnd, op, cpt)
  {
  }

  /** The loop stops after line k because the next line does not start inside the
      selection. */
  lemma EditedToEnd(before: seq<string>, cur: seq<string>, first: nat, k: nat, selEnd: nat, op: LineOp, cpt: nat)
    requires EditedUpTo(before, cur, first, k + 1, op, cpt) && first <= k < |cur|
    requires Reached(cur, first, selEnd, k)
    requires !(k + 1 < |cur| && BlockPos(cur, k + 1) < selEnd)
    ensures RangeEdited(before, cur, first, selEnd, op, cpt)
  {
    ReachedUpTo(cur, first, k, selEnd);
  }

  // ---------------------------------------------------------------------------
  // Find
  // ---------------------------------------------------------------------------

  /** Case folding, restricted to ASCII. */
  function Fold(c: char): char
  {
    if 'A' <= c <= 'Z' then (c as int + 32) as char else c
  }

  predicate MatchesAt(s: string, pat: string, k: nat)
  {
    k + |pat| <= |s| && forall i :: 0 <= i < |pat| ==> Fold(s[k + i]) == Fold(pat[i])
  }

  /** QString::indexOf(pat, from, Qt::CaseInsensitive). */
  function IndexOfNoCase(s: string, pat: string, from: nat): (r: int)
    ensures r == -1 || (from <= r && MatchesAt(s, pat, r))
    ensures r == -1 ==> forall k :: from <= k ==> !MatchesAt(s, pat, k)
    ensures r != -1 ==> forall k :: from <= k < r ==> !MatchesAt(s, pat, k)
    decreases |s| - from
  {
    if from + |pat| > |s| then -1
    else if MatchesAt(s, pat, from) then from
    else IndexOfNoCase(s, pat, from + 1)
  }

  datatype Hit = Hit(line: nat, col: nat)

  /** Hit a comes strictly before hit b in reading order. */
  predicate Before(a: Hit, b: Hit)
  {
    a.line < b.line || (a.line == b.line && a.col < b.col)
  }

  /** The first match at or after column col of line i, in reading order. */
  function FirstHit(lines: seq<string>, pat: string, i: nat, col: nat): (r: Option<Hit>)
    requires i <= |lines|
    ensures r.Some? ==> i <= r.value.line < |lines| && MatchesAt(lines[r.value.line], pat, r.value.col)
    ensures r.Some? && r.value.line == i ==> col <= r.value.col
    decreases |lines| - i
  {
    if i == |lines| then None
    else
      var j := IndexOfNoCase(lines[i], pat, col);
      if j != -1 then Some(Hit(i, j)) else FirstHit(lines, pat, i + 1, 0)
  }

  /** FirstHit misses nothing: every match from column col of line i on is found, and none
      comes before the hit. */
  lemma {:induction false} FirstHitIsFirst(lines: seq<string>, pat: string, i: nat, col: nat, l: nat, k: nat)
    requires i <= l < |lines| && (l == i ==> col <= k) && MatchesAt(lines[l], pat, k)
    ensures var r := FirstHit(lines, pat, i, col);
      r.Some? && !Before(Hit(l, k), r.value)
    decreases |lines| - i
  {
    var j := IndexOfNoCase(lines[i], pat, col);
    if j == -1 {
      FirstHitIsFirst(lines, pat, i + 1, 0, l, k);
    }
  }

  /** What find(fromTop) selects: the first match from the start column on the start line
      onwards, and when there is none and the start line is not the first, the first match
      from the top of the document. */
  function FindFrom(lines: seq<string>, pat: string, line: nat, col: nat): (r: Option<Hit>)
    requires line < |lines|
    ensures r.Some? ==> r.value.line < |lines| && MatchesAt(lines[r.value.line], pat, r.value.col)
  {
    match FirstHit(lines, pat, line, col)
    case Some(h) => Some(h)
    case None => if line != 0 then FirstHit(lines, pat, 0, 0) else None
  }

  /** find(fromTop) misses nothing: with no result there is no match after the start point,
      and none at all unless the search started on the first line. */
  lemma FindFromComplete(lines: seq<string>, pat: string, line: nat, col: nat, l: nat, k: nat)
    requires line < |lines| && l < |lines| && MatchesAt(lines[l], pat, k)
    requires line == 0 ==> l > 0 || col <= k
    ensures FindFrom(lines, pat, line, col).Some?
  {
    if line <= l && (l == line ==> col <= k) {
      FirstHitIsFirst(lines, pat, line, col, l, k);
    } else {
      FirstHitIsFirst(lines, pat, 0, 0, l, k);
    }
  }

  // ---------------------------------------------------------------------------
  // Navigation history
  // ---------------------------------------------------------------------------

  /** CodeEditor::Location: equal exactly when line and column are. */
  datatype Location = Location(line: int, col: int)

  /** QList::removeAll. */
  function RemoveAll(h: seq<Location>, x: Location): (r: seq<Location>)
    ensures x !in r && |r| <= |h|
    ensures forall y :: y != x ==> multiset(r)[y] == multiset(h)[y]
    ensures x !in h ==> r == h
  {
    if h == [] then []
    else
      var n := |h| - 1;
      assert h == h[..n] + [h[n]];
      RemoveAll(h[..n], x) + (if h[n] == x then [] else [h[n]])
  }

  predicate Distinct(h: seq<Location>)
  {
    forall y :: y in h ==> multiset(h)[y] == 1
  }

  lemma DistinctDropLast(h: seq<Location>)
    requires Distinct(h) && h != []
    ensures Distinct(h[..|h| - 1])
  {
    var n := |h| - 1;
    assert h == h[..n] + [h[n]];
    assert multiset(h) == multiset(h[..n]) + multiset{h[n]};
    forall y | y in h[..n]
      ensures multiset(h[..n])[y] == 1
    {
      assert y in h;
    }
  }

  /** The back history after pushLocation(loc) without the lock. */
  function Pushed(h: seq<Location>, loc: Location): seq<Location>
  {
    if h != [] && h[|h| - 1] == loc then h else RemoveAll(h, loc) + [loc]
  }

  /** The back history after find: a hit moves the cursor to the end of the match, which
      is pushed; no hit leaves the history as it was. */
  function AfterFind(h: seq<Location>, hit: Option<Hit>, pat: string): seq<Location>
  {
    if hit.Some? then Pushed(h, Location(hit.value.line, hit.value.col + |pat|)) else h
  }

  /** After a push the location is on top and, in a history without repeats, occurs exactly
      once; every other entry keeps its count. */
  lemma PushedPutsOnTop(h: seq<Location>, loc: Location)
    requires Distinct(h)
    ensures var r := Pushed(h, loc);
      r != [] && r[|r| - 1] == loc && Distinct(r) && multiset(r)[loc] == 1 &&
      forall y :: y != loc ==> multiset(r)[y] == multiset(h)[y]
  {
    if !(h != [] && h[|h| - 1] == loc) {
      var rest := RemoveAll(h, loc);
      RemoveAllKeepsDistinct(h, loc);
      var r := rest + [loc];
      assert multiset(r) == multiset(rest) + multiset{loc};
      forall y | y in r
        ensures multiset(r)[y] == 1
      {
        if y != loc {
          assert y in rest;
        }
      }
    }
  }

  lemma RemoveAllKeepsDistinct(h: seq<Location>, loc: Location)
    requires Distinct(h)
    ensures Distinct(RemoveAll(h, loc))
  {
    var rest := RemoveAll(h, loc);
    forall y | y in rest
      ensures multiset(rest)[y] == 1
    {
      assert y in multiset(rest);
      assert y in h;
    }
  }

  lemma {:induction false} RemoveAllAppend(a: seq<Location>, b: seq<Location>, x: Location)
    ensures RemoveAll(a + b, x) == RemoveAll(a, x) + RemoveAll(b, x)
    decreases |b|
  {
    if b == [] {
      assert a + b == a;
    } else {
      var n := |b| - 1;
      assert (a + b)[..|a + b| - 1] == a + b[..n];
      assert (a + b)[|a + b| - 1] == b[n];
      RemoveAllAppend(a, b[..n], x);
    }
  }

  lemma RemoveAllBetween(a: seq<Location>, loc: Location, b: seq<Location>)
    requires loc !in a && loc !in b
    ensures RemoveAll(a + [loc] + b, loc) == a + b
  {
    var ra, rl, rb := RemoveAll(a, loc), RemoveAll([loc], loc), RemoveAll(b, loc);
    assert ra == a && rb == b;
    assert rl == [] by {
      assert [loc][..0] == [];
    }
    RemoveAllAppend(a + [loc], b, loc);
    RemoveAllAppend(a, [loc], loc);
    assert RemoveAll(a + [loc], loc) == ra + rl == a;
  }

  /** In a history without repeats an entry occurs nowhere else. */
  lemma DistinctAt(h: seq<Location>, p: nat)
    requires Distinct(h) && p < |h|
    ensures h[p] !in h[..p] && h[p] !in h[p + 1..]
  {
    assert h == h[..p] + [h[p]] + h[p + 1..];
    assert multiset(h) == multiset(h[..p]) + multiset{h[p]} + multiset(h[p + 1..]);
    assert multiset(h)[h[p]] == 1;
  }

  /** A push onto a history without repeats appends a new location, and moves a listed one
      from its place to the top; every other entry keeps its relative order. */
  lemma PushedKeepsOrder(h: seq<Location>, loc: Location)
    requires Distinct(h)
    ensures loc !in h ==> Pushed(h, loc) == h + [loc]
    ensures forall p :: 0 <= p < |h| && h[p] == loc ==> Pushed(h, loc) == h[..p] + h[p + 1..] + [loc]
  {
    forall p | 0 <= p < |h| && h[p] == loc
      ensures Pushed(h, loc) == h[..p] + h[p + 1..] + [loc]
    {
      PushedFrom(h, p);
    }
  }

  /** Pushing the entry at p of a history without repeats moves it to the top. */
  lemma PushedFrom(h: seq<Location>, p: nat)
    requires Distinct(h) && p < |h|
    ensures Pushed(h, h[p]) == h[..p] + h[p + 1..] + [h[p]]
  {
    var a, x, b := h[..p], h[p], h[p + 1..];
    DistinctAt(h, p);
    assert h == a + [x] + b;
    if p == |h| - 1 {
      assert b == [];
    } else {
      RemoveAllBetween(a, x, b);
    }
  }

  /** Going back and then forward again restores both histories when the entry gone back
      from lies within its line: the cursor lands exactly on it, so that entry is what
      handleGoForward pushes. at is where the cursor stood before going forward. */
  lemma BackThenForwardRestores(lines: seq<string>, back: seq<Location>, forward: seq<Location>, at: Location)
    requires Distinct(back) && |back| > 1
    requires var top := back[|back| - 1];
      0 <= top.line < |lines| && 0 <= top.col <= |lines[top.line]|
    ensures var top := back[|back| - 1];
      var back1 := back[..|back| - 1];
      var forward1 := forward + [top];
      var loc := forward1[|forward1| - 1];
      forward1[..|forward1| - 1] == forward && Pushed(back1, CursorLanding(lines, loc.line, loc.col, at)) == back
  {
    var n := |back| - 1;
    var top := back[n];
    var back1 := back[..n];
    CursorLandingInLine(lines, top.line, top.col, at);
    assert back == back1 + [top];
    assert multiset(back) == multiset(back1) + multiset{top};
    assert top in back;
    assert multiset(back1)[top] == 0;
    assert back1[|back1| - 1] != top by {
      assert back1[|back1| - 1] in back1;
    }
  }

  /** An entry whose column lies past the end of its line, once the line was shortened,
      does not come back: going forward lands the cursor in the next line, and that is the
      entry pushed. */
  lemma BackThenForwardMovesStaleEntry(at: Location)
    ensures var back := [Location(0, 0), Location(0, 4)];
      var top := back[1];
      var landed := CursorLanding(["ab", "cd"], top.line, top.col, at);
      landed == Location(1, 1) && Pushed(back[..1], landed) == [Location(0, 0), Location(1, 1)] &&
      Pushed(back[..1], landed) != back
  {
    CursorLandingPastLineEnd(at);
    assert RemoveAll([Location(0, 0)], Location(1, 1)) == [Location(0, 0)];
  }

  // ---------------------------------------------------------------------------
  // Selections and keys
  // ---------------------------------------------------------------------------

  datatype Selection = Selection(anchor: nat, cursor: nat)

  /** selectLines(from, to): from the start of the upper line to the end of the text of the
      lower, anchored on the `from` side; a single line is selected from right to left. */
  function SelectLines(lines: seq<string>, from: nat, to: nat): (r: Option<Selection>)
    ensures r.Some? <==> from < |lines| && to < |lines|
    ensures r.Some? ==>
      var lo := if from < to then from else to;
      var hi := if from < to then to else from;
      && (if r.value.anchor < r.value.cursor then r.value.anchor else r.value.cursor) == BlockPos(lines, lo)
      && (if r.value.anchor < r.value.cursor then r.value.cursor else r.value.anchor) == BlockPos(lines, hi) + |lines[hi]|
    ensures r.Some? ==> (r.value.anchor < r.value.cursor <==> from < to)
  {
    if from < |lines| && to < |lines| then
      if from < to then
        BlockPosGrows(lines, from, to);
        Some(Selection(BlockPos(lines, from), BlockPos(lines, to) + |lines[to]|))
      else if to < from then
        BlockPosGrows(lines, to, from);
        Some(Selection(BlockPos(lines, from) + |lines[from]|, BlockPos(lines, to)))
      else
        Some(Selection(BlockPos(lines, from) + |lines[from]|, BlockPos(lines, to)))
    else None
  }

  /** The leading spaces Return copies from the line before the cursor. */
  function LeadingSpaces(s: string): (r: string)
    ensures r <= s && forall i :: 0 <= i < |r| ==> IsSpace(r[i])
    ensures |r| < |s| ==> !IsSpace(s[|r|])
  {
    var n := FirstNonSpace(s);
    s[..if n <= |s| then n else |s|]
  }

  /** The document after Return with auto-indent: the selection is replaced by a block
      break, and the new line starts with the leading spaces of the line before it. */
  function SplitWithIndent(lines: seq<string>, selStart: nat, selEnd: nat): (r: seq<string>)
    requires lines != [] && selStart <= selEnd < DocLength(lines)
    ensures |r| == |lines| + 1 - (FindBlock(lines, selEnd) - FindBlock(lines, selStart))
    // lines outside the selection are kept; the selected text gives way to a break, and
    // the new line is indented like the text before it
    ensures var la, lb := FindBlock(lines, selStart), FindBlock(lines, selEnd);
      && la <= lb && r[..la] == lines[..la] && r[la + 2..] == lines[lb + 1..]
      && r[la] == lines[la][..ColumnOf(lines, selStart)]
      && r[la + 1] == LeadingSpaces(r[la]) + lines[lb][ColumnOf(lines, selEnd)..]
  {
    var la := FindBlock(lines, selStart);
    var lb := FindBlock(lines, selEnd);
    assert la <= lb by {
      if lb < la {
        BlockPosGrows(lines, lb, la);
      }
    }
    var head := lines[la][..ColumnOf(lines, selStart)];
    lines[..la] + [head, LeadingSpaces(head) + lines[lb][ColumnOf(lines, selEnd)..]] + lines[lb + 1..]
  }

  datatype Key = TabKey | BacktabKey | EnterKey | ReturnKey | OtherKey(code: nat)
  datatype Modifier = ShiftModifier | ControlModifier | AltModifier | MetaModifier | KeypadModifier

  datatype KeyAction =
    | PassOn          // e->ignore(): Ctrl+Tab and Ctrl+Backtab are left to the window
    | IndentLines
    | UnindentLines
    | Swallow         // Return with a modifier is accepted and dropped
    | NewlineIndent
    | Default         // QPlainTextEdit::keyPressEvent

  /** The decision of keyPressEvent. atIndent: the cursor is at or before the first
      non-space of its line. */
  function KeyDispatch(key: Key, mods: set<Modifier>, readOnly: bool, hasSel: bool, atIndent: bool): (r: KeyAction)
    ensures r == PassOn <==> (key.TabKey? || key.BacktabKey?) && ControlModifier in mods
    ensures r in {IndentLines, UnindentLines, Swallow, NewlineIndent} ==> !readOnly
    ensures r == IndentLines <==> key.TabKey? && mods == {} && !readOnly && (hasSel || atIndent)
    ensures r == UnindentLines <==>
      key.BacktabKey? && ControlModifier !in mods && !readOnly && (hasSel || atIndent)
    ensures (r == NewlineIndent || r == Swallow) <==> (key.EnterKey? || key.ReturnKey?) && !readOnly
    ensures r == NewlineIndent <==> (key.EnterKey? || key.ReturnKey?) && !readOnly && mods == {}
  {
    match key
    case TabKey =>
      if ControlModifier in mods then PassOn
      else if !readOnly && (hasSel || atIndent) && mods == {} then IndentLines
      else Default
    case BacktabKey =>
      if ControlModifier in mods then PassOn
      else if !readOnly && (hasSel || atIndent) then UnindentLines
      else Default
    case EnterKey => if readOnly then Default else if mods != {} then Swallow else NewlineIndent
    case ReturnKey => if readOnly then Default else if mods != {} then Swallow else NewlineIndent
    case OtherKey(_) => Default
  }

  // ---------------------------------------------------------------------------
  // Line-number gutter
  // ---------------------------------------------------------------------------

  function Pow10(n: nat): nat
  {
    if n == 0 then 1 else 10 * Pow10(n - 1)
  }

  /** One step of the digit loop: dropping the last digit of max keeps m inside the
      scaled range. */
  lemma DigitStep(p: nat, max: nat, m: nat)
    requires max >= 10 && p * max <= m < p * (max + 1)
    ensures max / 10 >= 1
    ensures (10 * p) * (max / 10) <= m < (10 * p) * (max / 10 + 1)
  {
    var q, r := max / 10, max % 10;
    assert max == 10 * q + r && r < 10;
    assert p * max == p * (10 * q) + p * r;
    assert p * (max + 1) == p * (10 * q) + p * (r + 1);
    assert p * (r + 1) <= p * 10;
    assert p * (10 * q) == (10 * p) * q;
    assert (10 * p) * (q + 1) == (10 * p) * q + p * 10;
  }

  lemma DigitEnd(p: nat, max: nat, m: nat)
    requires 1 <= max < 10 && p * max <= m < p * (max + 1)
    ensures p <= m < 10 * p
  {
    assert p * 1 <= p * max;
    assert p * (max + 1) <= p * 10;
  }

  /** The digit count of handleAreaWidth for the block count n (at least one digit). */
  method DigitCount(n: nat) returns (digits: nat)
    ensures digits >= 1
    ensures Pow10(digits - 1) <= (if n < 1 then 1 else n) < Pow10(digits)
  {
    digits := 1;
    var max := if n < 1 then 1 else n;
    ghost var m := max;
    ghost var p: nat := 1;
    while max >= 10
      invariant digits >= 1 && max >= 1 && p == Pow10(digits - 1)
      invariant p * max <= m < p * (max + 1)
    {
      DigitStep(p, max, m);
      max := max / 10;
      p := 10 * p;
      digits := digits + 1;
    }
    DigitEnd(p, max, m);
  }

  /** 32-bit breakpoint line numbers (quint32). */
  type Line32 = x: nat | x < 0x1_0000_0000

  // ---------------------------------------------------------------------------
  // The editor
  // ---------------------------------------------------------------------------

  class CodeEditor {
    var lines: seq<string>
    var charPerTab: nat
    var readOnly: bool
    var undoAvail: bool
    var redoAvail: bool
    var copyAvail: bool
    var findText: string
    var backHisto: seq<Location>      // its last entry is the location shown
    var forwardHisto: seq<Location>
    var pushBackLock: bool
    var breakPoints: set<Line32>
    var curPos: int                   // execution-position marker, -1 when none
    var showNumbers: bool

    ghost predicate Valid()
      reads this
    {
      lines != [] && charPerTab < 256 && Distinct(backHisto) && !pushBackLock
    }

    /** CodeEditor(parent): an empty document, four columns per tab, nothing available to
        undo, redo or copy, no marker; showLineNumbers is the stored setting. */
    constructor (showLineNumbers: bool)
      ensures Valid()
      ensures lines == [[]] && charPerTab == 4 && !readOnly
      ensures !undoAvail && !redoAvail && !copyAvail && curPos == -1 && showNumbers == showLineNumbers
      ensures backHisto == [] && forwardHisto == [] && breakPoints == {} && findText == []
    {
      lines := [[]];
      charPerTab := 4;
      readOnly := false;
      undoAvail, redoAvail, copyAvail := false, false, false;
      findText := [];
      backHisto, forwardHisto := [], [];
      pushBackLock := false;
      breakPoints := {};
      curPos := -1;
      showNumbers := showLineNumbers;
    }

    method OnUndoAvail(on: bool)
      modifies this`undoAvail
      ensures undoAvail == on
    {
      undoAvail := on;
    }

    method OnRedoAvail(on: bool)
      modifies this`redoAvail
      ensures redoAvail == on
    {
      redoAvail := on;
    }

    method OnCopyAvail(on: bool)
      modifies this`copyAvail
      ensures copyAvail == on
    {
      copyAvail := on;
    }

    /** setCharPerTab(quint8). */
    method SetCharPerTab(cpt: nat)
      requires Valid() && cpt < 256
      modifies this`charPerTab
      ensures Valid() && charPerTab == cpt
    {
      charPerTab := cpt;
    }

    method SetPositionMarker(line: int)
      modifies this`curPos
      ensures curPos == line
    {
      curPos := line;
    }

    /** textLine(i): the text of line i, empty outside the document. */
    function TextLine(i: int): (r: string)
      reads this
      ensures 0 <= i < |lines| ==> r == lines[i]
      ensures !(0 <= i < |lines|) ==> r == []
    {
      if 0 <= i < |lines| then lines[i] else []
    }

    /** handleAreaWidth with the width of a digit given: 10 without line numbers, else 5 plus
        one digit width per decimal digit of the block count. */
    method HandleAreaWidth(digitWidth: nat) returns (w: nat)
      requires Valid()
      ensures !showNumbers ==> w == 10
      ensures showNumbers ==> exists d :: d >= 1 && w == 5 + digitWidth * d &&
                                Pow10(d - 1) <= |lines| < Pow10(d)
    {
      if !showNumbers {
        return 10;
      }
      var digits := DigitCount(|lines|);
      w := 5 + digitWidth * digits;
    }

    // --- line-range edits ----------------------------------------------------

    /** The do-while of the range commands: from the block holding selStart, edit a line, go
        on to the next while that line's start in the edited document is below selEnd. */
    method EditRange(op: LineOp, selStart: nat, selEnd: nat) returns (ok: bool)
      requires Valid() && selStart <= selEnd < DocLength(lines)
      modifies this`lines
      ensures Valid()
      ensures ok ==> RangeEdited(old(lines), lines, FindBlock(old(lines), selStart), selEnd, op, charPerTab)
      ensures !ok ==> RangeStopped(old(lines), lines, FindBlock(old(lines), selStart), selEnd, op, charPerTab)
    {
      var cur;
      ok, cur := EditLines(op, lines, FindBlock(lines, selStart), selEnd, charPerTab);
      lines := cur;
    }

    /** indent: one tab in front of every line the loop reaches. */
    method Indent(selStart: nat, selEnd: nat)
      requires Valid() && selStart <= selEnd < DocLength(lines)
      modifies this`lines
      ensures Valid()
      ensures RangeEdited(old(lines), lines, FindBlock(old(lines), selStart), selEnd, AddTab, charPerTab)
    {
      var ok := EditRange(AddTab, selStart, selEnd);
    }

    /** unindent; the source divides by zero on the first line when charPerTab is 0, which
        the model reports as ok == false with nothing edited. */
    method Unindent(selStart: nat, selEnd: nat) returns (ok: bool)
      requires Valid() && selStart <= selEnd < DocLength(lines)
      modifies this`lines
      ensures Valid()
      ensures ok <==> charPerTab > 0
      ensures ok ==> RangeEdited(old(lines), lines, FindBlock(old(lines), selStart), selEnd, RemoveLevel, charPerTab)
      ensures !ok ==> lines == old(lines)
    {
      ok := EditRange(RemoveLevel, selStart, selEnd);
      if !ok {
        assert lines == old(lines);
      }
    }

    /** setIndentation(n); ok == false where the source divides by zero. */
    method SetIndentation(n: nat, selStart: nat, selEnd: nat) returns (ok: bool)
      requires Valid() && selStart <= selEnd < DocLength(lines)
      modifies this`lines
      ensures Valid()
      ensures ok ==> RangeEdited(old(lines), lines, FindBlock(old(lines), selStart), selEnd, SetLevel(n), charPerTab)
      ensures !ok ==> RangeStopped(old(lines), lines, FindBlock(old(lines), selStart), selEnd, SetLevel(n), charPerTab)
    {
      ok := EditRange(SetLevel(n), selStart, selEnd);
    }

    /** fixIndent; garbage[j] is the value the uninitialised flag holds on line j. With
        charPerTab 0 the loop stops at the first reached line that no pull-left rule
        returns early for. */
    method FixIndent(garbage: seq<bool>, selStart: nat, selEnd: nat) returns (ok: bool)
      requires Valid() && selStart <= selEnd < DocLength(lines)
      modifies this`lines
      ensures Valid()
      ensures charPerTab > 0 ==> ok
      ensures ok ==> RangeEdited(old(lines), lines, FindBlock(old(lines), selStart), selEnd, FixLine(garbage), charPerTab)
      ensures !ok ==> RangeStopped(old(lines), lines, FindBlock(old(lines), selStart), selEnd, FixLine(garbage), charPerTab)
    {
      ok := EditRange(FixLine(garbage), selStart, selEnd);
    }

    /** handleIndent: ENABLED_IF(the editor is not read-only), then indent. */
    method HandleIndent(rt: Runtime, selStart: nat, selEnd: nat)
      requires Valid() && selStart <= selEnd < DocLength(lines)
      modifies this`lines, rt.sender
      ensures Valid()
      ensures rt.sender != null && rt.preparing ==>
        lines == old(lines) && rt.sender.ReportedBy(EnabledIf(!readOnly))
      ensures !(rt.sender != null && rt.preparing) && readOnly ==> lines == old(lines)
      ensures !(rt.sender != null && rt.preparing) && !readOnly ==>
        RangeEdited(old(lines), lines, FindBlock(old(lines), selStart), selEnd, AddTab, charPerTab)
    {
      var pass := EnabledIfMacro(rt, !readOnly);
      if pass {
        Indent(selStart, selEnd);
      }
    }

    /** handleUnindent: ENABLED_IF(the editor is not read-only), then unindent. */
    method HandleUnindent(rt: Runtime, selStart: nat, selEnd: nat)
      requires Valid() && selStart <= selEnd < DocLength(lines)
      modifies this`lines, rt.sender
      ensures Valid()
      ensures rt.sender != null && rt.preparing ==>
        lines == old(lines) && rt.sender.ReportedBy(EnabledIf(!readOnly))
      ensures !(rt.sender != null && rt.preparing) && (readOnly || charPerTab == 0) ==> lines == old(lines)
      ensures !(rt.sender != null && rt.preparing) && !readOnly && charPerTab > 0 ==>
        RangeEdited(old(lines), lines, FindBlock(old(lines), selStart), selEnd, RemoveLevel, charPerTab)
    {
      var pass := EnabledIfMacro(rt, !readOnly);
      if pass {
        var ok := Unindent(selStart, selEnd);
      }
    }

    /** handleSetIndent after the level dialog (0 to 20): ENABLED_IF(the editor is not
        read-only), then setIndentation when the dialog was accepted. */
    method HandleSetIndent(rt: Runtime, accepted: bool, level: nat, selStart: nat, selEnd: nat)
      returns (ok: bool)
      requires Valid() && selStart <= selEnd < DocLength(lines) && level <= 20
      modifies this`lines, rt.sender
      ensures Valid()
      ensures rt.sender != null && rt.preparing ==>
        lines == old(lines) && rt.sender.ReportedBy(EnabledIf(!readOnly))
      ensures !(rt.sender != null && rt.preparing) && (readOnly || !accepted) ==> ok && lines == old(lines)
      ensures !(rt.sender != null && rt.preparing) && !readOnly && accepted ==>
        var first := FindBlock(old(lines), selStart);
        (ok ==> RangeEdited(old(lines), lines, first, selEnd, SetLevel(level), charPerTab)) &&
        (!ok ==> RangeStopped(old(lines), lines, first, selEnd, SetLevel(level), charPerTab))
    {
      ok := true;
      var pass := EnabledIfMacro(rt, !readOnly);
      if pass && accepted {
        ok := SetIndentation(level, selStart, selEnd);
      }
    }

    /** handleFixIndent: ENABLED_IF(the editor is not read-only), then fixIndent as one
        undo step. */
    method HandleFixIndent(rt: Runtime, garbage: seq<bool>, selStart: nat, selEnd: nat)
      returns (ok: bool)
      requires Valid() && selStart <= selEnd < DocLength(lines)
      modifies this`lines, rt.sender
      ensures Valid()
      ensures rt.sender != null && rt.preparing ==>
        lines == old(lines) && rt.sender.ReportedBy(EnabledIf(!readOnly))
      ensures !(rt.sender != null && rt.preparing) && readOnly ==> ok && lines == old(lines)
      ensures !(rt.sender != null && rt.preparing) && !readOnly ==>
        var first := FindBlock(old(lines), selStart);
        (charPerTab > 0 ==> ok) &&
        (ok ==> RangeEdited(old(lines), lines, first, selEnd, FixLine(garbage), charPerTab)) &&
        (!ok ==> RangeStopped(old(lines), lines, first, selEnd, FixLine(garbage), charPerTab))
    {
      ok := true;
      var pass := EnabledIfMacro(rt, !readOnly);
      if pass {
        ok := FixIndent(garbage, selStart, selEnd);
      }
    }

    /** Return with auto-indent, as keyPressEvent performs it. */
    method NewlineWithIndent(selStart: nat, selEnd: nat)
      requires Valid() && selStart <= selEnd < DocLength(lines)
      modifies this`lines
      ensures Valid()
      ensures lines == SplitWithIndent(old(lines), selStart, selEnd)
    {
      var la := FindBlock(lines, selStart);
      var lb := FindBlock(lines, selEnd);
      if lb < la {
        BlockPosGrows(lines, lb, la);
      }
      var head := lines[la][..selStart - BlockPos(lines, la)];
      var tail := lines[lb][selEnd - BlockPos(lines, lb)..];
      var ws := FirstNwsPos(head);
      var indent := head[..if ws <= |head| then ws else |head|];
      lines := lines[..la] + [head, indent + tail] + lines[lb + 1..];
    }

    /** keyPressEvent for Tab, Backtab and Return; other keys are left to the base class,
        whose typing the model does not cover. */
    method KeyPress(key: Key, mods: set<Modifier>, anchor: nat, cursor: nat) returns (r: KeyAction)
      requires Valid() && anchor < DocLength(lines) && cursor < DocLength(lines)
      modifies this`lines
      ensures Valid()
      ensures var selStart := if anchor < cursor then anchor else cursor;
        var selEnd := if anchor < cursor then cursor else anchor;
        var line := FindBlock(old(lines), cursor);
        && r == KeyDispatch(key, mods, readOnly, anchor != cursor,
                            cursor <= BlockPos(old(lines), line) + FirstNonSpace(old(lines)[line]))
        && (r == IndentLines ==>
              RangeEdited(old(lines), lines, FindBlock(old(lines), selStart), selEnd, AddTab, charPerTab))
        && (r == UnindentLines && charPerTab > 0 ==>
              RangeEdited(old(lines), lines, FindBlock(old(lines), selStart), selEnd, RemoveLevel, charPerTab))
        && (r == NewlineIndent ==> lines == SplitWithIndent(old(lines), selStart, selEnd))
        && (r !in {IndentLines, UnindentLines, NewlineIndent} || (r == UnindentLines && charPerTab == 0) ==>
              lines == old(lines))
    {
      var selStart := if anchor < cursor then anchor else cursor;
      var selEnd := if anchor < cursor then cursor else anchor;
      var line := FindBlock(lines, cursor);
      var nws := FirstNwsPos(lines[line]);
      r := KeyDispatch(key, mods, readOnly, anchor != cursor, cursor <= BlockPos(lines, line) + nws);
      if r == IndentLines {
        Indent(selStart, selEnd);
      } else if r == UnindentLines {
        var ok := Unindent(selStart, selEnd);
      } else if r == NewlineIndent {
        NewlineWithIndent(selStart, selEnd);
      }
    }

    // --- find ----------------------------------------------------------------

    /** find(fromTop) from the cursor at (line, col): the match it selects, if any. Moving
        the cursor to the end of the match pushes that location onto the back history. */
    method Find(fromTop: bool, line: nat, col: nat) returns (hit: Option<Hit>)
      requires Valid() && line < |lines|
      modifies this`backHisto
      ensures Valid()
      ensures hit == (if fromTop then FindFrom(lines, findText, 0, 0) else FindFrom(lines, findText, line, col + 1))
      ensures backHisto == AfterFind(old(backHisto), hit, findText)
    {
      var start, c0 := line, col + 1;
      if fromTop {
        start, c0 := 0, 0;
      }
      hit := SearchFrom(start, c0);
      if hit.Some? {
        MoveToMatchEnd(hit.value, Location(line, col));
      }
    }

    /** setCursorPosition to the end of a match found from the cursor at `at`: the end lies
        within the match's line, so that is where the cursor lands and what is recorded. */
    method MoveToMatchEnd(h: Hit, at: Location)
      requires Valid() && h.line < |lines| && MatchesAt(lines[h.line], findText, h.col)
      modifies this`backHisto
      ensures Valid()
      ensures backHisto == AfterFind(old(backHisto), Some(h), findText)
    {
      CursorLandingInLine(lines, h.line, h.col + |findText|, at);
      SetCursorPosition(h.line, h.col + |findText|, at);
    }

    /** The search loop of find: from column c0 of line start to the end of the document,
        then once more from the top when start is not the first line. */
    method SearchFrom(start: nat, c0: nat) returns (hit: Option<Hit>)
      requires start < |lines|
      ensures hit == FindFrom(lines, findText, start, c0)
      ensures hit.Some? ==> hit.value.line < |lines| && MatchesAt(lines[hit.value.line], findText, hit.value.col)
    {
      var c := c0;
      var count := |lines|;
      var j := -1;
      var turnedAround := false;
      var i: int := start;
      while i < count
        invariant 0 <= i <= count && j == -1
        invariant !turnedAround ==>
          start <= i && c == (if i == start then c0 else 0) &&
          FirstHit(lines, findText, i, c) == FirstHit(lines, findText, start, c0)
        invariant !turnedAround && start != 0 ==> i < count
        invariant turnedAround ==>
          start != 0 && c == 0 && FirstHit(lines, findText, start, c0).None? &&
          FirstHit(lines, findText, i, 0) == FirstHit(lines, findText, 0, 0)
        decreases (if turnedAround then 0 else count + 1) + count - i
      {
        j := IndexOfNoCase(lines[i], findText, c);
        if j != -1 {
          return Some(Hit(i, j));
        }
        c := 0;
        if start != 0 && !turnedAround && i == count - 1 {
          turnedAround := true;
          i := -1;
        }
        i := i + 1;
      }
      return None;
    }

    /** setCursorPosition(line, col) with the cursor at `at`: for a line inside the document
        it moves the cursor, and onUpdateLocation records where the cursor then is. */
    method SetCursorPosition(line: int, col: int, at: Location)
      requires Distinct(backHisto)
      modifies this`backHisto
      ensures Distinct(backHisto)
      ensures backHisto == if 0 <= line < |lines| && !pushBackLock
                           then Pushed(old(backHisto), CursorLanding(lines, line, col, at))
                           else old(backHisto)
    {
      if 0 <= line < |lines| {
        PushLocation(CursorLanding(lines, line, col, at));
      }
    }

    /** pushLocation: nothing while the lock is held or when loc is already on top;
        otherwise loc moves to the top. */
    method PushLocation(loc: Location)
      requires Distinct(backHisto)
      modifies this`backHisto
      ensures Distinct(backHisto)
      ensures backHisto == if pushBackLock then old(backHisto) else Pushed(old(backHisto), loc)
    {
      PushedPutsOnTop(backHisto, loc);
      if pushBackLock {
        return;
      }
      if backHisto != [] && backHisto[|backHisto| - 1] == loc {
        return;
      }
      backHisto := RemoveAll(backHisto, loc);
      backHisto := backHisto + [loc];
    }

    /** handleGoBack: ENABLED_IF(more than one back entry); moves the top entry to the
        forward history and shows the one below it without recording it again. */
    method HandleGoBack(rt: Runtime)
      requires Valid()
      modifies this`backHisto, this`forwardHisto, this`pushBackLock, rt.sender
      ensures Valid()
      ensures rt.sender != null && rt.preparing ==>
        backHisto == old(backHisto) && forwardHisto == old(forwardHisto) &&
        rt.sender.ReportedBy(EnabledIf(|backHisto| > 1))
      ensures !(rt.sender != null && rt.preparing) ==>
        if |old(backHisto)| > 1 then
          backHisto == old(backHisto)[..|old(backHisto)| - 1] &&
          forwardHisto == old(forwardHisto) + [old(backHisto)[|old(backHisto)| - 1]]
        else backHisto == old(backHisto) && forwardHisto == old(forwardHisto)
    {
      var pass := EnabledIfMacro(rt, |backHisto| > 1);
      if !pass {
        return;
      }
      pushBackLock := true;
      forwardHisto := forwardHisto + [backHisto[|backHisto| - 1]];
      DistinctDropLast(backHisto);
      backHisto := backHisto[..|backHisto| - 1];
      var top := backHisto[|backHisto| - 1];
      SetCursorPosition(top.line, top.col, top);
      pushBackLock := false;
    }

    /** handleGoForward with the cursor at `at`: ENABLED_IF(a forward entry exists); pops it
        and moves the cursor there, which records where the cursor lands on the back history. */
    method HandleGoForward(rt: Runtime, at: Location)
      requires Valid()
      modifies this`backHisto, this`forwardHisto, rt.sender
      ensures Valid()
      ensures rt.sender != null && rt.preparing ==>
        backHisto == old(backHisto) && forwardHisto == old(forwardHisto) &&
        rt.sender.ReportedBy(EnabledIf(forwardHisto != []))
      ensures !(rt.sender != null && rt.preparing) ==>
        if old(forwardHisto) != [] then
          var loc := old(forwardHisto)[|old(forwardHisto)| - 1];
          forwardHisto == old(forwardHisto)[..|old(forwardHisto)| - 1] &&
          backHisto == (if 0 <= loc.line < |lines| then Pushed(old(backHisto), CursorLanding(lines, loc.line, loc.col, at))
                        else old(backHisto))
        else backHisto == old(backHisto) && forwardHisto == old(forwardHisto)
    {
      var pass := EnabledIfMacro(rt, forwardHisto != []);
      if !pass {
        return;
      }
      var loc := forwardHisto[|forwardHisto| - 1];
      forwardHisto := forwardHisto[..|forwardHisto| - 1];
      SetCursorPosition(loc.line, loc.col, at);
    }

    /** handleFindAgain: ENABLED_IF(a search text is set); searches on from the cursor. */
    method HandleFindAgain(rt: Runtime, line: nat, col: nat) returns (hit: Option<Hit>)
      requires Valid() && line < |lines|
      modifies this`backHisto, rt.sender
      ensures Valid()
      ensures rt.sender != null && rt.preparing ==>
        hit.None? && backHisto == old(backHisto) && rt.sender.ReportedBy(EnabledIf(findText != []))
      ensures !(rt.sender != null && rt.preparing) ==>
        hit == (if findText != [] then FindFrom(lines, findText, line, col + 1) else None)
      ensures backHisto == AfterFind(old(backHisto), hit, findText)
    {
      var pass := EnabledIfMacro(rt, findText != []);
      if !pass {
        return None;
      }
      hit := Find(false, line, col);
    }

    /** handleFind after the dialog: on cancel nothing happens; otherwise the answer becomes
        the search text, searched from the top when nothing was selected. */
    method HandleFind(rt: Runtime, accepted: bool, answer: string, selectionEmpty: bool, line: nat, col: nat)
      returns (hit: Option<Hit>)
      requires Valid() && line < |lines|
      modifies this`backHisto, this`findText, rt.sender
      ensures Valid()
      ensures rt.sender != null && rt.preparing ==>
        hit.None? && findText == old(findText) && backHisto == old(backHisto) &&
        rt.sender.ReportedBy(EnabledIf(true))
      ensures !(rt.sender != null && rt.preparing) ==>
        findText == (if accepted then answer else old(findText)) &&
        hit == (if !accepted then None
                else if selectionEmpty then FindFrom(lines, answer, 0, 0)
                else FindFrom(lines, answer, line, col + 1))
      ensures backHisto == AfterFind(old(backHisto), hit, findText)
    {
      var pass := EnabledIfMacro(rt, true);
      if !pass || !accepted {
        return None;
      }
      findText := answer;
      hit := Find(selectionEmpty, line, col);
    }

    // --- breakpoints ---------------------------------------------------------

    method AddBreakPoint(l: Line32)
      modifies this`breakPoints
      ensures breakPoints == old(breakPoints) + {l}
    {
      breakPoints := breakPoints + {l};
    }

    method RemoveBreakPoint(l: Line32)
      modifies this`breakPoints
      ensures breakPoints == old(breakPoints) - {l}
    {
      breakPoints := breakPoints - {l};
    }

    /** toggleBreakPoint on the cursor line: flips its membership, reports it through `out`,
        and answers whether it was added. */
    method ToggleBreakPoint(line: Line32) returns (added: bool, out: Line32)
      modifies this`breakPoints
      ensures out == line
      ensures added <==> line !in old(breakPoints)
      ensures added <==> line in breakPoints
      ensures breakPoints - {line} == old(breakPoints) - {line}
    {
      if line in breakPoints {
        breakPoints := breakPoints - {line};
        return false, line;
      }
      breakPoints := breakPoints + {line};
      return true, line;
    }

    method ClearBreakPoints()
      modifies this`breakPoints
      ensures breakPoints == {}
    {
      breakPoints := {};
    }
  }

  // ---------------------------------------------------------------------------
  // Where the range loop differs from the selection
  // ---------------------------------------------------------------------------

  /** indent on the three lines "a", "b", "c" with all of them selected (positions 0 to 5):
      the tabs inserted above push the start of "c" (4, inside the selection) to 6, so
      the loop stops before it. */
  lemma IndentAsWrittenSkipsLastLine(after: seq<string>)
    requires RangeEdited(["a", "b", "c"], after, 0, 5, AddTab, 4)
    ensures after == ["\ta", "\tb", "c"]
    ensures BlockPos(["a", "b", "c"], 2) < 5
  {
    assert Reached(after, 0, 5, 0);
    assert after[0] == "\ta";
    assert BlockPos(after, 1) == 3;
    assert Reached(after, 0, 5, 1);
    assert after[1] == "\tb";
    assert BlockPos(after, 2) == 6;
    assert !Reached(after, 0, 5, 2);
    assert after[2] == "c";
  }

  /** indent with the end of the selection kept up to date as tabs are inserted (as a
      QTextCursor holding it would be), from line k. */
  function IndentTracked(lines: seq<string>, k: nat, selEnd: nat): (r: seq<string>)
    requires k < |lines|
    ensures |r| == |lines|
    decreases |lines| - k
  {
    var next := lines[k := ['\t'] + lines[k]];
    if k + 1 < |next| && BlockPos(next, k + 1) < selEnd + 1 then IndentTracked(next, k + 1, selEnd + 1)
    else next
  }

  /** Lines first..m-1 carry one extra tab, the rest are as in `lines`. */
  predicate TabbedUpTo(lines: seq<string>, cur: seq<string>, first: nat, m: nat)
  {
    |cur| == |lines| && forall j :: 0 <= j < |lines| ==>
      cur[j] == if first <= j < m then ['\t'] + lines[j] else lines[j]
  }

  lemma {:induction false} TabbedShift(lines: seq<string>, cur: seq<string>, first: nat, m: nat, i: nat)
    requires TabbedUpTo(lines, cur, first, m) && first <= m && i <= |lines|
    ensures BlockPos(cur, i) == BlockPos(lines, i) + (if i <= first then 0 else if i <= m then i - first else m - first)
  {
    if i > 0 {
      TabbedShift(lines, cur, first, m, i - 1);
    }
  }

  /** Below the last line the loop edits, no later line starts inside the selection; above
      it, every line after the first does. */
  lemma ReachedUpTo(lines: seq<string>, first: nat, k: nat, selEnd: nat)
    requires first <= k < |lines| && (k == first || BlockPos(lines, k) < selEnd)
    requires k + 1 < |lines| ==> BlockPos(lines, k + 1) >= selEnd
    ensures forall j :: 0 <= j < |lines| ==>
      ((first <= j && (j == first || BlockPos(lines, j) < selEnd)) <==> first <= j <= k)
  {
    forall j | 0 <= j < |lines| && k < j
      ensures !(BlockPos(lines, j) < selEnd)
    {
      if k + 1 < j {
        BlockPosGrows(lines, k + 1, j);
      }
    }
    forall j | 0 <= j < |lines| && first < j <= k
      ensures BlockPos(lines, j) < selEnd
    {
      if j < k {
        BlockPosGrows(lines, j, k);
      }
    }
  }

  /** Line j with a tab in front when it is the first line or starts inside the selection
      after it. */
  function TabbedWhereReached(lines: seq<string>, first: nat, selEnd: nat): seq<string>
  {
    seq(|lines|, j requires 0 <= j < |lines| =>
      if first <= j && (j == first || BlockPos(lines, j) < selEnd) then ['\t'] + lines[j] else lines[j])
  }

  /** Lines first..m-1 with one extra tab, the rest as in `lines`. */
  function TabbedBetween(lines: seq<string>, first: nat, m: nat): seq<string>
  {
    seq(|lines|, j requires 0 <= j < |lines| => if first <= j < m then ['\t'] + lines[j] else lines[j])
  }

  lemma TabbedStep(lines: seq<string>, first: nat, k: nat)
    requires first <= k < |lines|
    ensures var cur := TabbedBetween(lines, first, k);
      cur[k := ['\t'] + cur[k]] == TabbedBetween(lines, first, k + 1)
  {
  }

  /** The loop's test on the shifted text agrees with the test on the original positions. */
  lemma TabbedGoesOn(lines: seq<string>, first: nat, k: nat, selEnd: nat)
    requires first <= k < |lines|
    ensures k + 1 < |lines| ==>
      (BlockPos(TabbedBetween(lines, first, k + 1), k + 1) < selEnd + (k - first) + 1 <==> BlockPos(lines, k + 1) < selEnd)
  {
    if k + 1 < |lines| {
      var next := TabbedBetween(lines, first, k + 1);
      assert TabbedUpTo(lines, next, first, k + 1);
      TabbedShift(lines, next, first, k + 1, k + 1);
    }
  }

  /** When the loop stops after line k, the lines carry a tab exactly where the selection
      reaches. */
  lemma TabbedFinal(lines: seq<string>, first: nat, k: nat, selEnd: nat)
    requires first <= k < |lines|
    requires k == first || BlockPos(lines, k) < selEnd
    requires k + 1 < |lines| ==> BlockPos(lines, k + 1) >= selEnd
    ensures TabbedBetween(lines, first, k + 1) == TabbedWhereReached(lines, first, selEnd)
  {
    ReachedUpTo(lines, first, k, selEnd);
  }

  /** One round of the loop on the partly indented text, when its test on the original
      positions lets it go on to line k + 1. */
  lemma IndentTrackedGoesOn(lines: seq<string>, first: nat, k: nat, selEnd: nat)
    requires first <= k && k + 1 < |lines| && BlockPos(lines, k + 1) < selEnd
    ensures var e := selEnd + (k - first);
      IndentTracked(TabbedBetween(lines, first, k), k, e) ==
        IndentTracked(TabbedBetween(lines, first, k + 1), k + 1, e + 1)
  {
    TabbedStep(lines, first, k);
    TabbedGoesOn(lines, first, k, selEnd);
  }

  /** The last round of the loop: its test on the original positions stops it after line k. */
  lemma IndentTrackedStops(lines: seq<string>, first: nat, k: nat, selEnd: nat)
    requires first <= k < |lines|
    requires k + 1 < |lines| ==> BlockPos(lines, k + 1) >= selEnd
    ensures IndentTracked(TabbedBetween(lines, first, k), k, selEnd + (k - first)) ==
            TabbedBetween(lines, first, k + 1)
  {
    TabbedStep(lines, first, k);
    TabbedGoesOn(lines, first, k, selEnd);
  }

  lemma {:induction false} IndentTrackedFrom(lines: seq<string>, first: nat, k: nat, selEnd: nat)
    requires first <= k < |lines|
    requires k == first || BlockPos(lines, k) < selEnd
    ensures IndentTracked(TabbedBetween(lines, first, k), k, selEnd + (k - first)) ==
            TabbedWhereReached(lines, first, selEnd)
    decreases |lines| - k
  {
    if k + 1 < |lines| && BlockPos(lines, k + 1) < selEnd {
      IndentTrackedGoesOn(lines, first, k, selEnd);
      assert selEnd + (k - first) + 1 == selEnd + (k + 1 - first);
      IndentTrackedFrom(lines, first, k + 1, selEnd);
    } else {
      IndentTrackedStops(lines, first, k, selEnd);
      TabbedFinal(lines, first, k, selEnd);
    }
  }

  /** The intended indent: one tab in front of the line holding the selection start and of
      every later line that starts inside the selection; nothing else changes. */
  lemma IndentTrackedCoversSelection(lines: seq<string>, selStart: nat, selEnd: nat)
    requires lines != [] && selStart <= selEnd < DocLength(lines)
    ensures var first := FindBlock(lines, selStart);
      var r := IndentTracked(lines, first, selEnd);
      |r| == |lines| && forall j :: 0 <= j < |lines| ==>
        r[j] == if j == first || (first < j && BlockPos(lines, j) < selEnd) then ['\t'] + lines[j] else lines[j]
  {
    var first := FindBlock(lines, selStart);
    assert TabbedBetween(lines, first, first) == lines;
    IndentTrackedFrom(lines, first, first, selEnd);
    var t := TabbedWhereReached(lines, first, selEnd);
    assert forall j :: 0 <= j < |lines| ==>
      t[j] == if j == first || (first < j && BlockPos(lines, j) < selEnd) then ['\t'] + lines[j] else lines[j];
  }

  /** fixIndent as written, with the flag still true from the comment line before: the
      flag the comment line set strips "  x" instead of giving it one tab. */
  lemma FixIndentFlagCarriedOver(after: seq<string>)
    requires RangeEdited(["  // c", "  x"], after, 0, 8, FixLine([false, true]), 4)
    ensures after == ["// c", "x"]
  {
    CommentLineNeedsNoTabWidth();
    FixIndentAsWrittenStrips();
    assert ApplyOp(FixLine([false, true]), "  // c", 4, 0) == Some("// c");
    assert after[0] == "// c";
    assert BlockPos(after, 1) == 5;
    assert Reached(after, 0, 8, 1);
  }

  /** fixIndent as written with charPerTab 0: the comment line is pulled left, and the loop
      stops, dividing by zero, at the next line. */
  lemma FixIndentWithoutTabWidth(after: seq<string>)
    requires RangeStopped(["  // c", "  x"], after, 0, 8, FixLine([]), 0)
    ensures after == ["// c", "  x"]
  {
    CommentLineNeedsNoTabWidth();
    var before := ["  // c", "  x"];
    assert ApplyOp(FixLine([]), before[0], 0, 0) == Some("// c");
    var c :| 0 <= c < 2 && Reached(after, 0, 8, c) && ApplyOp(FixLine([]), before[c], 0, c).None? &&
      forall j :: 0 <= j < 2 ==> if 0 <= j < c then ApplyOp(FixLine([]), before[j], 0, j) == Some(after[j]) else after[j] == before[j];
    assert c == 1;
  }

  lemma IndentTrackedCoversLastLine()
    ensures IndentTracked(["a", "b", "c"], 0, 5) == ["\ta", "\tb", "\tc"]
  {
    var lines := ["a", "b", "c"];
    assert DocLength(lines) == 6;
    IndentTrackedCoversSelection(lines, 0, 5);
    assert FindBlock(lines, 0) == 0;
    assert BlockPos(lines, 1) == 2 && BlockPos(lines, 2) == 4;
    var r := IndentTracked(lines, 0, 5);
    assert r[0] == "\ta" && r[1] == "\tb" && r[2] == "\tc";
  }
}
