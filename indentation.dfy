/**
  Line-level indentation arithmetic of the code editor.

  A line is a string without its block separator. Its leading run of tabs and
  spaces ("blanks") covers a number of columns, a tab counting charPerTab and a
  space one; the indentation level is that count divided by charPerTab.
  Positions inside a line are offsets from the block start.

  The per-line edits of unindent, setIndentation and fixIndent are given both
  as the source computes them (…AsWritten, None where the source divides by
  zero) and as evidently intended (UnindentLine, SetIndentLine, FixIndentLine).
*/
module Indentation {
  import opened Wrappers

  predicate IsBlank(c: char) { c == '\t' || c == ' ' }

  /** QChar::isSpace, restricted to ASCII: space, tab, line feed, vertical tab, form feed, return. */
  predicate IsSpace(c: char) { c == ' ' || '\t' <= c <= '\r' }

  function Tabs(n: nat): (r: string)
    ensures |r| == n && forall i :: 0 <= i < n ==> r[i] == '\t'
  {
    seq(n, _ => '\t')
  }

  /** Columns covered by a run of blanks. */
  function Columns(ws: string, cpt: nat): nat
  {
    if ws == [] then 0 else Columns(ws[..|ws| - 1], cpt) + (if ws[|ws| - 1] == '\t' then cpt else 1)
  }

  /** Number of leading blanks: the offset of the first non-blank character. */
  function LeadingBlanks(s: string): (n: nat)
    ensures n <= |s|
    ensures forall i :: 0 <= i < n ==> IsBlank(s[i])
    ensures n < |s| ==> !IsBlank(s[n])
  {
    if s == [] || !IsBlank(s[0]) then 0
    else
      var n := 1 + LeadingBlanks(s[1..]);
      assert forall i :: 1 <= i < n ==> s[i] == s[1..][i - 1];
      n
  }

  /** The text of a line after its leading blanks. */
  function Content(s: string): (r: string)
    ensures r == [] || !IsBlank(r[0])
  {
    s[LeadingBlanks(s)..]
  }

  function IndentLevel(s: string, cpt: nat): nat
    requires cpt > 0
  {
    Columns(s[..LeadingBlanks(s)], cpt) / cpt
  }

  // ---------------------------------------------------------------------------
  // Substring search (QString::indexOf)
  // ---------------------------------------------------------------------------

  predicate OccursAt(s: string, pat: string, k: nat)
  {
    k + |pat| <= |s| && s[k..k + |pat|] == pat
  }

  function IndexFrom(s: string, pat: string, k: nat): (r: int)
    ensures r == -1 || (k <= r && OccursAt(s, pat, r))
    ensures r == -1 ==> forall j :: k <= j <= |s| ==> !OccursAt(s, pat, j)
    ensures r != -1 ==> forall j :: k <= j < r ==> !OccursAt(s, pat, j)
    decreases |s| - k
  {
    if k + |pat| > |s| then -1
    else if s[k..k + |pat|] == pat then k
    else IndexFrom(s, pat, k + 1)
  }

  /** The first offset where pat occurs in s, or -1. */
  function IndexOf(s: string, pat: string): int
  {
    IndexFrom(s, pat, 0)
  }

  /** The two rules by which fixIndent pulls a line to the left margin: a "//" comment
      starting at the first non-blank, or a "::=" production before any "//". */
  predicate PullsLeft(s: string)
  {
    var comment := IndexOf(s, "//");
    var assign := IndexOf(s, "::=");
    comment == LeadingBlanks(s) || (assign != -1 && (comment == -1 || assign < comment))
  }

  // ---------------------------------------------------------------------------
  // calcIndentsOfLine, _firstNwsPos, calcPosFromIndent
  // ---------------------------------------------------------------------------

  /** calcIndentsOfLine: the level, the number of leading blanks, whether the line is blank
      only, and (when wantRm) the pull-left flag, which it only ever sets; rmIn is the
      value the caller's flag had before. With charPerTab 0 only a line that a pull-left rule
      returns early for escapes the division. */
  method CalcIndentsOfLine(s: string, cpt: nat, wantRm: bool, rmIn: bool)
    returns (level: nat, off: nat, onlyWs: bool, rmWs: bool)
    requires cpt > 0 || (wantRm && PullsLeft(s))
    ensures off == LeadingBlanks(s) && onlyWs == (off == |s|)
    ensures rmWs == ((wantRm && PullsLeft(s)) || rmIn)
    ensures level == if wantRm && PullsLeft(s) then 0 else IndentLevel(s, cpt)
  {
    rmWs := rmIn;
    off := 0;
    var spaces := 0;
    var i := 0;
    while i < |s| && IsBlank(s[i])
      invariant i <= LeadingBlanks(s)
      invariant off == i && spaces == Columns(s[..i], cpt)
    {
      ColumnsStep(s, i, cpt);
      spaces := spaces + (if s[i] == '\t' then cpt else 1);
      off := off + 1;
      i := i + 1;
    }
    onlyWs := i >= |s|;
    if wantRm {
      var assignPos := IndexOf(s, "::=");
      var commentPos := IndexOf(s, "//");
      if commentPos == off {
        rmWs := true;
        return 0, off, onlyWs, rmWs;
      }
      if assignPos != -1 && (commentPos == -1 || assignPos < commentPos) {
        rmWs := true;
        return 0, off, onlyWs, rmWs;
      }
    }
    level := spaces / cpt;
  }

  /** Offset of the first non-space character, or the block length (text plus separator)
      when the line holds only spaces. */
  function FirstNonSpace(s: string): (n: nat)
    ensures n <= |s| + 1
    ensures forall i :: 0 <= i < n && i < |s| ==> IsSpace(s[i])
    ensures n <= |s| ==> n < |s| && !IsSpace(s[n])
    ensures n == |s| + 1 <==> forall i :: 0 <= i < |s| ==> IsSpace(s[i])
  {
    if s == [] then 1
    else if !IsSpace(s[0]) then 0
    else
      var n := 1 + FirstNonSpace(s[1..]);
      assert forall i :: 1 <= i < |s| ==> s[i] == s[1..][i - 1];
      n
  }

  /** _firstNwsPos, relative to the block start. */
  method FirstNwsPos(s: string) returns (p: nat)
    ensures p == FirstNonSpace(s)
  {
    var i := 0;
    while i < |s|
      invariant i <= |s|
      invariant forall k :: 0 <= k < i ==> IsSpace(s[k])
    {
      if !IsSpace(s[i]) {
        return i;
      }
      i := i + 1;
    }
    return |s| + 1;
  }

  /** The scan of calcPosFromIndent from offset i with `spaces` columns seen so far: a tab adds
      cpt, a space one, the first other character ends the scan at its own offset, reaching
      level `indent` ends it after the current character, and a scan that runs off the end
      gives the block start. None where the source divides by zero. */
  function ScanFrom(s: string, i: nat, spaces: nat, indent: nat, cpt: nat): (r: Option<nat>)
    requires i <= |s|
    ensures r.None? <==> cpt == 0 && i < |s| && IsBlank(s[i])
    ensures r.Some? ==> r.value <= |s|
    ensures r.Some? && i <= LeadingBlanks(s) ==> r.value <= LeadingBlanks(s)
    decreases |s| - i
  {
    if i == |s| then Some(0)
    else if !IsBlank(s[i]) then Some(i)
    else
      var sp := spaces + (if s[i] == '\t' then cpt else 1);
      if cpt == 0 then None
      else if sp / cpt >= indent then Some(i + 1)
      else ScanFrom(s, i + 1, sp, indent, cpt)
  }

  /** calcPosFromIndent(block, indent, charPerTab), relative to the block start. */
  function PosFromIndent(s: string, indent: nat, cpt: nat): (r: Option<nat>)
    ensures r.None? <==> cpt == 0 && LeadingBlanks(s) > 0
    ensures r.Some? ==> r.value <= LeadingBlanks(s)
  {
    ScanFrom(s, 0, 0, indent, cpt)
  }

  method CalcPosFromIndent(s: string, indent: nat, cpt: nat) returns (p: nat)
    requires cpt > 0 || LeadingBlanks(s) == 0
    ensures PosFromIndent(s, indent, cpt) == Some(p)
  {
    var spaces: nat := 0;
    var i := 0;
    while i < |s|
      invariant i <= |s|
      invariant ScanFrom(s, i, spaces, indent, cpt) == PosFromIndent(s, indent, cpt)
      invariant cpt > 0 || i == 0
    {
      if s[i] == '\t' {
        spaces := spaces + cpt;
      } else if s[i] == ' ' {
        spaces := spaces + 1;
      } else {
        return i;
      }
      if spaces / cpt >= indent {
        return i + 1;
      }
      i := i + 1;
    }
    return 0;
  }

  // ---------------------------------------------------------------------------
  // Per-line edits as the source computes them
  // ---------------------------------------------------------------------------

  /** One line of unindent: calcPosFromIndent is called with charPerTab and the level in
      swapped places. */
  function UnindentAsWritten(s: string, cpt: nat): (r: Option<string>)
    ensures r.None? <==> cpt == 0
  {
    if cpt == 0 then None
    else
      var level := IndentLevel(s, cpt);
      if level == 0 then Some(s)
      else Some(Tabs(level - 1) + s[PosFromIndent(s, cpt, level).value..])
  }

  /** One line of setIndentation(n), with the same swapped call; a line at level 0 that
      starts with a blank makes it divide by zero. */
  function SetIndentAsWritten(s: string, cpt: nat, n: nat): (r: Option<string>)
    ensures r.None? <==> cpt == 0 || (IndentLevel(s, cpt) == 0 && LeadingBlanks(s) > 0)
  {
    if cpt == 0 then None
    else
      match PosFromIndent(s, cpt, IndentLevel(s, cpt))
      case None => None
      case Some(p) => Some(Tabs(n) + s[p..])
  }

  /** One line of fixIndent; rmWs is the value of the uninitialised flag when no pull-left
      rule fires. calcIndentsOfLine returns for a pull-left line before it divides, so with
      charPerTab 0 only the other lines fail. */
  function FixIndentAsWritten(s: string, cpt: nat, rmWs: bool): (r: Option<string>)
    ensures r.None? <==> cpt == 0 && !PullsLeft(s)
  {
    if cpt == 0 && !PullsLeft(s) then None
    else
      var off := LeadingBlanks(s);
      if off == 0 then Some(s)
      else if off == |s| then Some([])
      else
        var rule := PullsLeft(s);
        var level := if rule then 0 else IndentLevel(s, cpt);
        var n := if !(rule || rmWs) && level == 0 then 1 else level;
        Some(Tabs(n) + s[off..])
  }

  /** The line edits of the four range commands. fixIndent declares its flag afresh and
      uninitialised for every line: garbage[j] is what it holds on line j (false past the
      end of the sequence), which covers a flag kept from an earlier line. */
  datatype LineOp = AddTab | RemoveLevel | SetLevel(level: nat) | FixLine(garbage: seq<bool>)

  /** The uninitialised flag's value on line j. */
  function FlagAt(garbage: seq<bool>, j: nat): bool
  {
    j < |garbage| && garbage[j]
  }

  /** The edit of line j, whose text is s. */
  function ApplyOp(op: LineOp, s: string, cpt: nat, j: nat): (r: Option<string>)
    ensures op.AddTab? ==> r == Some(['\t'] + s)
    ensures r.None? ==> cpt == 0 || op.SetLevel?
  {
    match op
    case AddTab => Some(['\t'] + s)
    case RemoveLevel => UnindentAsWritten(s, cpt)
    case SetLevel(n) => SetIndentAsWritten(s, cpt, n)
    case FixLine(garbage) => FixIndentAsWritten(s, cpt, FlagAt(garbage, j))
  }

  /** The body of the do-while loops of indent, unindent, setIndentation and fixIndent for
      line j; None where the source divides by zero. */
  method EditLine(op: LineOp, s: string, cpt: nat, j: nat) returns (r: Option<string>)
    ensures r == ApplyOp(op, s, cpt, j)
  {
    match op {
      case AddTab =>
        r := Some(['\t'] + s);
      case RemoveLevel =>
        if cpt == 0 {
          return None;
        }
        var level, off, onlyWs, rmWs := CalcIndentsOfLine(s, cpt, false, false);
        if level > 0 {
          var p := CalcPosFromIndent(s, cpt, level);
          r := Some(Tabs(level - 1) + s[p..]);
        } else {
          r := Some(s);
        }
      case SetLevel(n) =>
        if cpt == 0 {
          return None;
        }
        var level, off, onlyWs, rmWs := CalcIndentsOfLine(s, cpt, false, false);
        if level == 0 && off > 0 {
          return None;
        }
        var p := CalcPosFromIndent(s, cpt, level);
        r := Some(Tabs(n) + s[p..]);
      case FixLine(garbage) =>
        if cpt == 0 && !PullsLeft(s) {
          return None;
        }
        var level, off, onlyWs, rmWs := CalcIndentsOfLine(s, cpt, true, FlagAt(garbage, j));
        if off != 0 {
          if onlyWs {
            r := Some([]);
          } else {
            if !rmWs {
              level := if level == 0 && off != 0 then 1 else level;
            }
            r := Some(Tabs(level) + s[off..]);
          }
        } else {
          r := Some(s);
        }
    }
  }

  // ---------------------------------------------------------------------------
  // Per-line edits as evidently intended
  // ---------------------------------------------------------------------------

  /** Replaces the leading blanks that make up the line's current level (as calcPosFromIndent
      with its arguments in the declared order finds them) by n tabs. */
  function ReindentTo(s: string, cpt: nat, n: nat): string
    requires cpt > 0
  {
    Tabs(n) + s[PosFromIndent(s, IndentLevel(s, cpt), cpt).value..]
  }

  function UnindentLine(s: string, cpt: nat): string
    requires cpt > 0
  {
    var level := IndentLevel(s, cpt);
    if level == 0 then s else ReindentTo(s, cpt, level - 1)
  }

  function SetIndentLine(s: string, cpt: nat, n: nat): string
    requires cpt > 0
  {
    ReindentTo(s, cpt, n)
  }

  /** fixIndent with its flag initialised to false. */
  function FixIndentLine(s: string, cpt: nat): string
    requires cpt > 0
  {
    var off := LeadingBlanks(s);
    if off == 0 then s
    else if off == |s| then []
    else if PullsLeft(s) then s[off..]
    else
      var level := IndentLevel(s, cpt);
      Tabs(if level == 0 then 1 else level) + s[off..]
  }

  // ---------------------------------------------------------------------------
  // Lemmas
  // ---------------------------------------------------------------------------

  lemma DivAtLeast(c: nat, d: nat, q: nat)
    requires d > 0
    ensures c / d >= q <==> c >= q * d
  {
    var k := c / d;
    assert c == d * k + c % d;
    if k >= q {
      assert d * k >= d * q;
    } else {
      assert k + 1 <= q;
      assert d * (k + 1) <= d * q;
      assert c < d * (k + 1);
    }
  }

  lemma DivOfMultiplePlus(q: nat, r: nat, d: nat)
    requires d > 0 && r < d
    ensures (q * d + r) / d == q
  {
    DivAtLeast(q * d + r, d, q);
    DivAtLeast(q * d + r, d, q + 1);
    assert (q + 1) * d == q * d + d;
  }

  lemma {:induction false} ColumnsAppend(a: string, b: string, cpt: nat)
    ensures Columns(a + b, cpt) == Columns(a, cpt) + Columns(b, cpt)
    decreases |b|
  {
    if b == [] {
      assert a + b == a;
    } else {
      assert (a + b)[..|a + b| - 1] == a + b[..|b| - 1];
      ColumnsAppend(a, b[..|b| - 1], cpt);
    }
  }

  lemma {:induction false} ColumnsOfTabs(n: nat, cpt: nat)
    ensures Columns(Tabs(n), cpt) == n * cpt
  {
    if n > 0 {
      assert Tabs(n)[..n - 1] == Tabs(n - 1);
      ColumnsOfTabs(n - 1, cpt);
      assert (n - 1) * cpt + cpt == n * cpt;
    }
  }

  /** The number of leading blanks is the first offset that is not a blank. */
  lemma LeadingBlanksIs(s: string, n: nat)
    requires n <= |s| && forall i :: 0 <= i < n ==> IsBlank(s[i])
    requires n == |s| || !IsBlank(s[n])
    ensures LeadingBlanks(s) == n
  {
  }

  /** The scan with the declared argument order, started below the line's level, stops inside
      the leading blanks at the first offset where that level is reached. */
  lemma {:induction false} ScanStopsAtLevel(s: string, i: nat, indent: nat, cpt: nat)
    requires cpt > 0 && indent > 0 && i <= LeadingBlanks(s)
    requires Columns(s[..i], cpt) < indent * cpt
    requires Columns(s[..LeadingBlanks(s)], cpt) >= indent * cpt
    ensures var r := ScanFrom(s, i, Columns(s[..i], cpt), indent, cpt);
      r.Some? && i < r.value <= LeadingBlanks(s) && Columns(s[..r.value], cpt) >= indent * cpt
    decreases |s| - i
  {
    assert i < LeadingBlanks(s);
    assert IsBlank(s[i]);
    ColumnsStep(s, i, cpt);
    var sp := Columns(s[..i + 1], cpt);
    DivAtLeast(sp, cpt, indent);
    if sp < indent * cpt {
      ScanStopsAtLevel(s, i + 1, indent, cpt);
    }
  }

  /** A scan that cannot reach its level before the first non-blank ends there, or at the
      block start when the line holds only blanks. */
  lemma {:induction false} ScanBelowLevel(s: string, i: nat, indent: nat, cpt: nat)
    requires cpt > 0 && i <= LeadingBlanks(s)
    requires Columns(s[..LeadingBlanks(s)], cpt) < indent * cpt
    ensures ScanFrom(s, i, Columns(s[..i], cpt), indent, cpt) ==
            Some(if LeadingBlanks(s) == |s| then 0 else LeadingBlanks(s))
    decreases |s| - i
  {
    var lb := LeadingBlanks(s);
    if i < lb {
      ColumnsStep(s, i, cpt);
      ColumnsPrefix(s, i + 1, lb, cpt);
      DivAtLeast(Columns(s[..i + 1], cpt), cpt, indent);
      ScanBelowLevel(s, i + 1, indent, cpt);
    }
  }

  lemma ColumnsStep(s: string, i: nat, cpt: nat)
    requires i < |s|
    ensures Columns(s[..i + 1], cpt) == Columns(s[..i], cpt) + (if s[i] == '\t' then cpt else 1)
  {
    assert s[..i + 1][..i] == s[..i];
  }

  /** A longer prefix never covers fewer columns. */
  lemma ColumnsPrefix(s: string, i: nat, j: nat, cpt: nat)
    requires i <= j <= |s|
    ensures Columns(s[..i], cpt) <= Columns(s[..j], cpt)
  {
    assert s[..j] == s[..i] + s[i..j];
    ColumnsAppend(s[..i], s[i..j], cpt);
  }

  /** calcPosFromIndent asked for a level above the line's own: the first non-blank, or the
      block start when the line holds only blanks. */
  lemma PosFromIndentBelowLevel(s: string, indent: nat, cpt: nat)
    requires cpt > 0 && IndentLevel(s, cpt) < indent
    ensures PosFromIndent(s, indent, cpt) == Some(if LeadingBlanks(s) == |s| then 0 else LeadingBlanks(s))
  {
    DivAtLeast(Columns(s[..LeadingBlanks(s)], cpt), cpt, indent);
    assert s[..0] == [];
    ScanBelowLevel(s, 0, indent, cpt);
  }

  /** The offset calcPosFromIndent finds for the line's own level lies within the leading
      blanks, and the blanks after it cover less than one level. */
  lemma LevelCut(s: string, cpt: nat)
    requires cpt > 0
    ensures var p := PosFromIndent(s, IndentLevel(s, cpt), cpt).value;
      p <= LeadingBlanks(s) && Columns(s[p..LeadingBlanks(s)], cpt) < cpt
  {
    var lb := LeadingBlanks(s);
    var level := IndentLevel(s, cpt);
    var total := Columns(s[..lb], cpt);
    var p := PosFromIndent(s, level, cpt).value;
    LevelBounds(total, cpt);
    var reached := level * cpt;
    if lb > 0 && level > 0 {
      assert s[..0] == [];
      ScanStopsAtLevel(s, 0, level, cpt);
    } else if lb > 0 {
      assert p == 1;
    } else {
      assert p == 0;
    }
    CutBelowOneLevel(s, cpt, p, reached);
  }

  /** From an offset whose prefix reaches a multiple the whole blank run does not pass by a
      full level, the rest of the run covers less than one level. */
  lemma CutBelowOneLevel(s: string, cpt: nat, p: nat, reached: nat)
    requires p <= LeadingBlanks(s) && Columns(s[..p], cpt) >= reached
    requires Columns(s[..LeadingBlanks(s)], cpt) < reached + cpt
    ensures Columns(s[p..LeadingBlanks(s)], cpt) < cpt
  {
    var lb := LeadingBlanks(s);
    assert s[..lb] == s[..p] + s[p..lb];
    ColumnsAppend(s[..p], s[p..lb], cpt);
  }

  /** The level of a column count: its multiple of cpt lies at most one level below. */
  lemma LevelBounds(total: nat, cpt: nat)
    requires cpt > 0
    ensures (total / cpt) * cpt <= total < (total / cpt) * cpt + cpt
  {
    var k := total / cpt;
    assert total == cpt * k + total % cpt;
  }

  /** Replacing the blanks of the current level by n tabs sets the level to n and keeps the
      rest of the line. */
  lemma ReindentSetsLevel(s: string, cpt: nat, n: nat)
    requires cpt > 0
    ensures IndentLevel(ReindentTo(s, cpt, n), cpt) == n
    ensures Content(ReindentTo(s, cpt, n)) == Content(s)
  {
    var p := PosFromIndent(s, IndentLevel(s, cpt), cpt).value;
    LevelCut(s, cpt);
    ReindentLevelFrom(s, cpt, n, p);
    ReindentContentFrom(s, n, p);
  }

  /** n tabs in front of the line from offset p on, where the blanks from p cover less than
      one level, make a line of level n. */
  lemma ReindentLevelFrom(s: string, cpt: nat, n: nat, p: nat)
    requires cpt > 0 && p <= LeadingBlanks(s) && Columns(s[p..LeadingBlanks(s)], cpt) < cpt
    ensures IndentLevel(Tabs(n) + s[p..], cpt) == n
  {
    var lb := LeadingBlanks(s);
    var u, k := s[p..], lb - p;
    assert u[..k] == s[p..lb];
    TabsBeforeBlanks(n, u, k);
    ColumnsAppend(Tabs(n), u[..k], cpt);
    ColumnsOfTabs(n, cpt);
    DivOfMultiplePlus(n, Columns(u[..k], cpt), cpt);
  }

  /** Tabs in front of the line from an offset within its leading blanks keep its content. */
  lemma ReindentContentFrom(s: string, n: nat, p: nat)
    requires p <= LeadingBlanks(s)
    ensures Content(Tabs(n) + s[p..]) == Content(s)
  {
    var lb := LeadingBlanks(s);
    var u, k := s[p..], lb - p;
    assert u[k..] == s[lb..];
    TabsBeforeBlanks(n, u, k);
  }

  /** n tabs in front of a text whose first k characters are its leading blanks. */
  lemma TabsBeforeBlanks(n: nat, u: string, k: nat)
    requires k <= |u| && forall i :: 0 <= i < k ==> IsBlank(u[i])
    requires k == |u| || !IsBlank(u[k])
    ensures var t := Tabs(n) + u;
      LeadingBlanks(t) == n + k && t[..n + k] == Tabs(n) + u[..k] && t[n + k..] == u[k..]
  {
    var t := Tabs(n) + u;
    forall i | 0 <= i < n + k
      ensures IsBlank(t[i])
    {
      if i >= n {
        assert t[i] == u[i - n];
      }
    }
    if n + k < |t| {
      assert t[n + k] == u[k];
    }
    LeadingBlanksIs(t, n + k);
  }

  /** Intended unindent: the level drops by one (a line at level 0 is kept) and the text after
      the leading blanks is unchanged. */
  lemma UnindentLineLowersLevel(s: string, cpt: nat)
    requires cpt > 0
    ensures var level := IndentLevel(s, cpt);
      IndentLevel(UnindentLine(s, cpt), cpt) == if level == 0 then 0 else level - 1
    ensures Content(UnindentLine(s, cpt)) == Content(s)
  {
    if IndentLevel(s, cpt) > 0 {
      ReindentSetsLevel(s, cpt, IndentLevel(s, cpt) - 1);
    }
  }

  /** Intended setIndentation: the line ends at exactly level n with its text unchanged. */
  lemma SetIndentLineSetsLevel(s: string, cpt: nat, n: nat)
    requires cpt > 0
    ensures IndentLevel(SetIndentLine(s, cpt, n), cpt) == n
    ensures Content(SetIndentLine(s, cpt, n)) == Content(s)
  {
    ReindentSetsLevel(s, cpt, n);
  }

  lemma LevelOfTabsBefore(n: nat, rest: string, cpt: nat)
    requires cpt > 0 && rest != [] && !IsBlank(rest[0])
    ensures LeadingBlanks(Tabs(n) + rest) == n
    ensures IndentLevel(Tabs(n) + rest, cpt) == n
    ensures Content(Tabs(n) + rest) == rest
  {
    var t := Tabs(n) + rest;
    assert t[n] == rest[0];
    LeadingBlanksIs(t, n);
    assert t[..n] == Tabs(n);
    ColumnsOfTabs(n, cpt);
    DivOfMultiplePlus(n, 0, cpt);
    assert t[n..] == rest;
  }

  /** Intended fixIndent: a line with text after its blanks keeps that text behind tabs only,
      at its level but at least one, or at the margin when a pull-left rule fires; a line
      of blanks only becomes empty; an unindented line is kept. */
  lemma FixIndentLineNormalises(s: string, cpt: nat)
    requires cpt > 0
    ensures LeadingBlanks(s) == |s| ==> FixIndentLine(s, cpt) == []
    ensures LeadingBlanks(s) == 0 ==> FixIndentLine(s, cpt) == s
    ensures Content(FixIndentLine(s, cpt)) == Content(s)
    ensures var r := FixIndentLine(s, cpt);
      forall i :: 0 <= i < LeadingBlanks(r) ==> r[i] == '\t' || LeadingBlanks(s) == 0
    ensures 0 < LeadingBlanks(s) < |s| ==>
      IndentLevel(FixIndentLine(s, cpt), cpt) ==
        if PullsLeft(s) then 0 else if IndentLevel(s, cpt) == 0 then 1 else IndentLevel(s, cpt)
  {
    var off := LeadingBlanks(s);
    if off == |s| {
      assert FixIndentLine(s, cpt) == [];
    } else if off > 0 {
      var level := IndentLevel(s, cpt);
      var n := if PullsLeft(s) then 0 else if level == 0 then 1 else level;
      assert FixIndentLine(s, cpt) == Tabs(n) + s[off..];
      TabsBeforeContent(n, s, cpt);
    }
  }

  /** n tabs in front of the text after the leading blanks: a line of level n with the same
      content and only tabs as blanks. */
  lemma TabsBeforeContent(n: nat, s: string, cpt: nat)
    requires cpt > 0 && LeadingBlanks(s) < |s|
    ensures var r := Tabs(n) + s[LeadingBlanks(s)..];
      && Content(r) == Content(s) && IndentLevel(r, cpt) == n
      && forall i :: 0 <= i < LeadingBlanks(r) ==> r[i] == '\t'
  {
    var rest := s[LeadingBlanks(s)..];
    LevelOfTabsBefore(n, rest, cpt);
    var r := Tabs(n) + rest;
    assert forall i :: 0 <= i < n ==> r[i] == Tabs(n)[i];
  }

  /** The two argument orders of calcPosFromIndent agree on lines without tabs. */
  lemma {:induction false} SwapHarmlessWithoutTabs(s: string, i: nat, spaces: nat, a: nat, b: nat)
    requires a > 0 && b > 0 && i <= |s|
    requires forall k :: i <= k < |s| ==> s[k] != '\t'
    ensures ScanFrom(s, i, spaces, a, b) == ScanFrom(s, i, spaces, b, a)
    decreases |s| - i
  {
    if i < |s| && IsBlank(s[i]) {
      DivAtLeast(spaces + 1, b, a);
      DivAtLeast(spaces + 1, a, b);
      assert a * b == b * a;
      SwapHarmlessWithoutTabs(s, i + 1, spaces + 1, a, b);
    }
  }

  // ---------------------------------------------------------------------------
  // Where the source and the intent differ
  // ---------------------------------------------------------------------------

  /** The swapped scan on six tabs, four columns per tab: it looks for level 4 in units of
      6 columns and stops after four tabs. */
  lemma SixTabsScanAsWritten()
    ensures PosFromIndent("\t\t\t\t\t\tx", 4, 6) == Some(4)
  {
    var s := "\t\t\t\t\t\tx";
    assert ScanFrom(s, 3, 18, 4, 6) == Some(4);
    assert ScanFrom(s, 2, 12, 4, 6) == Some(4);
    assert ScanFrom(s, 1, 6, 4, 6) == Some(4);
  }

  /** unindent as written on six tabs: level 6 is rebuilt as five tabs before the two tabs
      the scan left behind. */
  lemma SixTabsUnindentAsWritten()
    ensures UnindentAsWritten("\t\t\t\t\t\tx", 4) == Some(Tabs(7) + "x")
  {
    var s := "\t\t\t\t\t\tx";
    assert s == Tabs(6) + "x";
    LevelOfTabsBefore(6, "x", 4);
    SixTabsScanAsWritten();
    assert Tabs(5) + s[4..] == Tabs(7) + "x";
  }

  /** unindent on six tabs before text, four columns per tab, leaves seven tabs. */
  lemma UnindentAsWrittenDeepens()
    ensures var s := "\t\t\t\t\t\tx";
      && IndentLevel(s, 4) == 6
      && UnindentAsWritten(s, 4) == Some("\t\t\t\t\t\t\tx")
      && IndentLevel(UnindentAsWritten(s, 4).value, 4) == 7
      && IndentLevel(UnindentLine(s, 4), 4) == 5
  {
    var s := "\t\t\t\t\t\tx";
    assert s == Tabs(6) + "x";
    LevelOfTabsBefore(6, "x", 4);
    SixTabsUnindentAsWritten();
    assert Tabs(7) + "x" == "\t\t\t\t\t\t\tx";
    LevelOfTabsBefore(7, "x", 4);
    UnindentLineLowersLevel(s, 4);
  }

  /** setIndentation on " x" (level 0, starting with a blank) divides by zero. */
  lemma SetIndentAsWrittenDividesByZero(n: nat)
    ensures SetIndentAsWritten(" x", 4, n).None?
    ensures IndentLevel(SetIndentLine(" x", 4, n), 4) == n
  {
    assert LeadingBlanks(" x") == 1;
    assert Columns(" ", 4) == 1;
    SetIndentLineSetsLevel(" x", 4, n);
  }

  /** fixIndent on "  x" with the uninitialised flag happening to be true strips the
      indentation instead of giving the line one tab. */
  lemma FixIndentAsWrittenStrips()
    ensures FixIndentAsWritten("  x", 4, true) == Some("x")
    ensures FixIndentLine("  x", 4) == "\tx"
  {
    var s := "  x";
    LeadingBlanksIs(s, 2);
    assert s[..2] == "  ";
    assert Columns("  ", 4) == 2;
    assert IndentLevel(s, 4) == 0;
    assert IndexFrom(s, "//", 2) == -1;
    assert IndexFrom(s, "//", 1) == -1;
    assert IndexOf(s, "//") == -1;
    assert IndexFrom(s, "::=", 1) == -1;
    assert IndexOf(s, "::=") == -1;
    assert !PullsLeft(s);
    assert s[2..] == "x";
    assert Tabs(0) + "x" == "x";
    assert Tabs(1) + "x" == "\tx";
  }

  /** A comment line is pulled to the margin before calcIndentsOfLine divides, so it is
      fixed even with charPerTab 0, where "  x" divides by zero. */
  lemma CommentLineNeedsNoTabWidth()
    ensures FixIndentAsWritten("  // c", 0, false) == Some("// c")
    ensures FixIndentAsWritten("  // c", 4, false) == Some("// c")
    ensures FixIndentAsWritten("  x", 0, false).None?
  {
    var s := "  // c";
    LeadingBlanksIs(s, 2);
    assert IndexFrom(s, "//", 2) == 2;
    assert IndexFrom(s, "//", 1) == 2;
    assert IndexOf(s, "//") == 2;
    assert PullsLeft(s);
    assert s[2..] == "// c";
    assert Tabs(0) + "// c" == "// c";
    FixIndentAsWrittenStrips();
  }
}
