/** Editing of the shell startup file: configure-shell.sh replaces the managed block at its
    end, leave-proxy.sh removes it. Both share a marker guard and an awk filter.
 */
module ShellBlock {
  import opened Options

  const BEGIN_MARKER := "# >>> pto-auth-proxy managed environment >>>"
  const END_MARKER := "# <<< pto-auth-proxy managed environment <<<"
  const LEGACY_BEGIN_MARKER := "# ---- 686 authenticated proxy ----"
  const LEGACY_END_MARKER := "# ---------------------------------"
  const ENV_FILE := "${XDG_CONFIG_HOME:-$HOME/.config}/pto-auth-proxy/env.sh"

  /** A line of the file: one of the four markers, which are recognised by comparing the whole
      line, or any other text. */
  datatype Line = Begin | End | LegacyBegin | LegacyEnd | Other(text: string)

  type Lines = seq<Line>

  function Classify(text: string): Line {
    if text == BEGIN_MARKER then Begin
    else if text == END_MARKER then End
    else if text == LEGACY_BEGIN_MARKER then LegacyBegin
    else if text == LEGACY_END_MARKER then LegacyEnd
    else Other(text)
  }

  function Text(l: Line): string {
    match l
    case Begin => BEGIN_MARKER
    case End => END_MARKER
    case LegacyBegin => LEGACY_BEGIN_MARKER
    case LegacyEnd => LEGACY_END_MARKER
    case Other(text) => text
  }

  /** Reading a text as a line loses nothing, and the four markers are told apart. */
  lemma LinesAreTexts(text: string)
    ensures Text(Classify(text)) == text
    ensures Classify("# >>> pto-auth-proxy managed environment >>>") == Begin
    ensures Classify("# <<< pto-auth-proxy managed environment <<<") == End
    ensures Classify("# ---- 686 authenticated proxy ----") == LegacyBegin
    ensures Classify("# ---------------------------------") == LegacyEnd
  {
    assert BEGIN_MARKER[2] == '>' && END_MARKER[2] == '<';
    assert LEGACY_BEGIN_MARKER[2] == '-' && LEGACY_END_MARKER[2] == '-';
    assert LEGACY_BEGIN_MARKER[6] == ' ' && LEGACY_END_MARKER[6] == '-';
  }

  predicate Opens(l: Line) {
    l.Begin? || l.LegacyBegin?
  }

  predicate Closes(l: Line) {
    l.End? || l.LegacyEnd?
  }

  // ---------------------------------------------------------------- the scripts as functions

  /** The awk program. */
  function Filter(ls: Lines, skipping: bool): Lines {
    if ls == [] then []
    else if Opens(ls[0]) then Filter(ls[1..], true)
    else if Closes(ls[0]) && skipping then Filter(ls[1..], false)
    else (if skipping then [] else [ls[0]]) + Filter(ls[1..], skipping)
  }

  /** `grep -Fxc` */
  function Count(ls: Lines, l: Line): nat {
    if ls == [] then 0 else (if ls[0] == l then 1 else 0) + Count(ls[1..], l)
  }

  /** The guard against malformed blocks. */
  predicate Accepts(ls: Lines) {
    && Count(ls, Begin) == Count(ls, End) <= 1
    && Count(ls, LegacyBegin) == Count(ls, LegacyEnd) <= 1
  }

  const SOURCE_TEST := Other("[ -r \"" + ENV_FILE + "\" ] && \\")
  const SOURCE_LINE := Other("    . \"" + ENV_FILE + "\"")

  function Block(): Lines {
    [Begin, SOURCE_TEST, SOURCE_LINE, End]
  }

  function Configure(rc: Lines): Option<Lines> {
    if Accepts(rc) then Some(Filter(rc, false) + Block()) else None
  }

  function Leave(rc: Lines): Option<Lines> {
    if !Accepts(rc) then None
    else if Count(rc, Begin) == 0 && Count(rc, LegacyBegin) == 0 then Some(rc)
    else Some(Filter(rc, false))
  }

  // ---------------------------------------------------------------- the scripts as they run

  /** The startup file and the backups that configure leaves next to it. */
  class ShellRc {
    var lines: Lines
    var backups: seq<Lines>

    constructor (lines: Lines)
      ensures this.lines == lines && backups == []
    {
      this.lines, backups := lines, [];
    }

    /** The awk loop. */
    method Awk() returns (out: Lines)
      ensures out == Filter(lines, false)
    {
      var skipping := false;
      out := [];
      var i := 0;
      while i < |lines|
        invariant 0 <= i <= |lines|
        invariant Filter(lines, false) == out + Filter(lines[i..], skipping)
      {
        assert lines[i..][0] == lines[i] && lines[i..][1..] == lines[i + 1..];
        if Opens(lines[i]) {
          skipping := true;
        } else if Closes(lines[i]) && skipping {
          skipping := false;
        } else if !skipping {
          ghost var rest := Filter(lines[i + 1..], false);
          assert out + ([lines[i]] + rest) == (out + [lines[i]]) + rest;
          out := out + [lines[i]];
        }
        i := i + 1;
      }
    }

    method ConfigureShell() returns (accepted: bool)
      modifies this
      ensures accepted <==> Configure(old(lines)).Some?
      ensures lines == if accepted then Configure(old(lines)).value else old(lines)
      ensures backups == old(backups) + if lines != old(lines) then [old(lines)] else []
    {
      accepted := Accepts(lines);
      if !accepted {
        return;
      }
      var edited := Awk();
      edited := edited + Block();
      if edited != lines {
        backups := backups + [lines];
        lines := edited;
      }
    }

    method RemoveShellBlock() returns (accepted: bool)
      modifies this`lines
      ensures accepted <==> Leave(old(lines)).Some?
      ensures lines == if accepted then Leave(old(lines)).value else old(lines)
    {
      accepted := Accepts(lines);
      if accepted && !(Count(lines, Begin) == 0 && Count(lines, LegacyBegin) == 0) {
        lines := Awk();
      }
    }
  }

  // ---------------------------------------------------------------- filtering

  lemma {:induction false} FilterAppend(a: Lines, b: Lines, skipping: bool)
    ensures Filter(a + b, skipping) == Filter(a, skipping) + Filter(b, After(a, skipping))
  {
    if a == [] {
      assert a + b == b;
    } else {
      assert (a + b)[0] == a[0] && (a + b)[1..] == a[1..] + b;
      FilterAppend(a[1..], b, if Opens(a[0]) then true else if Closes(a[0]) then false else skipping);
    }
  }

  /** Whether the filter is skipping after these lines. */
  function After(ls: Lines, skipping: bool): bool {
    if ls == [] then skipping
    else After(ls[1..], if Opens(ls[0]) then true else if Closes(ls[0]) then false else skipping)
  }

  lemma {:induction false} FilteredHasNoOpening(ls: Lines, skipping: bool)
    ensures forall l :: l in Filter(ls, skipping) ==> !Opens(l)
  {
    if ls != [] {
      FilteredHasNoOpening(ls[1..], true);
      FilteredHasNoOpening(ls[1..], false);
    }
  }

  lemma {:induction false} FilterKeepsPlain(ls: Lines)
    requires forall l :: l in ls ==> !Opens(l)
    ensures Filter(ls, false) == ls && !After(ls, false)
  {
    if ls != [] {
      assert ls[0] in ls;
      FilterKeepsPlain(ls[1..]);
    }
  }

  lemma BlockIsSkipped()
    ensures Filter(Block(), false) == []
  {
    var b := Block();
    assert b[1..] == [SOURCE_TEST, SOURCE_LINE, End] && b[1..][1..] == [SOURCE_LINE, End];
    assert b[1..][1..][1..] == [End] && b[1..][1..][1..][1..] == [];
    assert Filter([End], true) == [];
  }

  /** Filtering undoes the appended block: a second filter gives back the first one's result. */
  lemma FilterUndoesBlock(rc: Lines)
    ensures Filter(Filter(rc, false) + Block(), false) == Filter(rc, false)
  {
    var f := Filter(rc, false);
    FilteredHasNoOpening(rc, false);
    FilterKeepsPlain(f);
    FilterAppend(f, Block(), false);
    BlockIsSkipped();
    assert f + [] == f;
  }

  /** Configure is idempotent: a second run, if the guard lets it happen, changes nothing. */
  lemma ConfigureIsIdempotent(rc: Lines)
    requires Configure(rc).Some? && Configure(Configure(rc).value).Some?
    ensures Configure(Configure(rc).value) == Configure(rc)
  {
    FilterUndoesBlock(rc);
  }

  // ---------------------------------------------------------------- when the guard accepts again

  /** The marker lines of a file, in order. */
  function Markers(ls: Lines): Lines {
    if ls == [] then [] else (if Opens(ls[0]) || Closes(ls[0]) then [ls[0]] else []) + Markers(ls[1..])
  }

  /** Opening and closing markers take turns, and the last block is closed. */
  predicate Alternates(ms: Lines, open: bool) {
    if ms == [] then !open else (Opens(ms[0]) <==> !open) && Alternates(ms[1..], !open)
  }

  /** No closing marker stands outside a block. */
  ghost predicate NoStray(ls: Lines, skipping: bool) {
    forall l :: l in Filter(ls, skipping) ==> !Closes(l)
  }

  /** The same, read off the markers: each closing one directly follows an opening one. */
  predicate Closed(ms: Lines, open: bool) {
    ms == [] || ((Closes(ms[0]) ==> open) && Closed(ms[1..], Opens(ms[0])))
  }

  lemma {:induction false} StrayIff(ls: Lines, skipping: bool)
    ensures NoStray(ls, skipping) <==> Closed(Markers(ls), skipping)
  {
    if ls != [] {
      var rest := ls[1..];
      if Opens(ls[0]) {
        StrayIff(rest, true);
        assert Markers(ls)[1..] == Markers(rest);
      } else if Closes(ls[0]) {
        StrayIff(rest, false);
        assert Markers(ls)[1..] == Markers(rest);
        if !skipping {
          assert ls[0] in Filter(ls, skipping);
        }
      } else {
        StrayIff(rest, skipping);
        assert Markers(ls) == Markers(rest);
        StrayPlain(ls, skipping);
      }
    }
  }

  lemma StrayPlain(ls: Lines, skipping: bool)
    requires ls != [] && !Opens(ls[0]) && !Closes(ls[0])
    ensures NoStray(ls, skipping) <==> NoStray(ls[1..], skipping)
  {
    var rest := Filter(ls[1..], skipping);
    assert Filter(ls, skipping) == (if skipping then [] else [ls[0]]) + rest;
    if NoStray(ls, skipping) {
      forall l | l in rest
        ensures !Closes(l)
      {
        assert l in Filter(ls, skipping);
      }
    }
  }

  lemma {:induction false} MarkerCounts(ls: Lines, l: Line)
    requires Opens(l) || Closes(l)
    ensures Count(Markers(ls), l) == Count(ls, l)
  {
    if ls != [] {
      MarkerCounts(ls[1..], l);
      if Opens(ls[0]) || Closes(ls[0]) {
        assert Markers(ls)[0] == ls[0] && Markers(ls)[1..] == Markers(ls[1..]);
      } else {
        assert Markers(ls) == Markers(ls[1..]);
      }
    }
  }

  lemma {:induction false} MarkersAreMarkers(ls: Lines)
    ensures forall i :: 0 <= i < |Markers(ls)| ==> Opens(Markers(ls)[i]) || Closes(Markers(ls)[i])
  {
    if ls != [] {
      MarkersAreMarkers(ls[1..]);
    }
  }

  function Openings(ms: Lines): nat {
    if ms == [] then 0 else (if Opens(ms[0]) then 1 else 0) + Openings(ms[1..])
  }

  function Closings(ms: Lines): nat {
    if ms == [] then 0 else (if Closes(ms[0]) then 1 else 0) + Closings(ms[1..])
  }

  lemma {:induction false} CountKinds(ms: Lines)
    ensures Openings(ms) == Count(ms, Begin) + Count(ms, LegacyBegin)
    ensures Closings(ms) == Count(ms, End) + Count(ms, LegacyEnd)
  {
    if ms != [] {
      CountKinds(ms[1..]);
    }
  }

  lemma {:induction false} OpeningsLead(ms: Lines, open: bool)
    requires Closed(ms, open)
    ensures Closings(ms) <= Openings(ms) + if open then 1 else 0
  {
    if ms != [] {
      OpeningsLead(ms[1..], Opens(ms[0]));
    }
  }

  /** With at least as many closing as opening markers, each closing one right behind an
      opening one, the two kinds take turns. */
  lemma {:induction false} ClosedAlternates(ms: Lines, open: bool)
    requires forall i :: 0 <= i < |ms| ==> Opens(ms[i]) || Closes(ms[i])
    requires Openings(ms) + (if open then 1 else 0) <= Closings(ms) && Closed(ms, open)
    ensures Alternates(ms, open)
  {
    if ms != [] {
      OpeningsLead(ms[1..], Opens(ms[0]));
      ClosedAlternates(ms[1..], !open);
    }
  }

  lemma {:induction false} AlternatesCloses(ms: Lines, open: bool)
    requires Alternates(ms, open)
    ensures Closed(ms, open)
  {
    if ms != [] {
      AlternatesCloses(ms[1..], !open);
    }
  }

  lemma {:induction false} CountAppend(a: Lines, b: Lines, l: Line)
    ensures Count(a + b, l) == Count(a, l) + Count(b, l)
  {
    if a == [] {
      assert a + b == b;
    } else {
      assert (a + b)[1..] == a[1..] + b;
      CountAppend(a[1..], b, l);
    }
  }

  lemma {:induction false} CountZero(ls: Lines, l: Line)
    ensures Count(ls, l) == 0 <==> l !in ls
  {
    if ls != [] {
      CountZero(ls[1..], l);
    }
  }

  lemma BlockCounts()
    ensures Count(Block(), Begin) == 1 && Count(Block(), End) == 1
    ensures Count(Block(), LegacyBegin) == 0 && Count(Block(), LegacyEnd) == 0
  {
    var b := Block();
    assert b[1..] == [SOURCE_TEST, SOURCE_LINE, End] && b[1..][1..] == [SOURCE_LINE, End];
    assert b[1..][1..][1..] == [End] && b[1..][1..][1..][1..] == [];
    assert Count([End], End) == 1;
  }

  /** The guard accepts the configured file exactly when the filter left no closing marker. */
  lemma AcceptsConfigured(rc: Lines)
    ensures Accepts(Filter(rc, false) + Block()) <==> NoStray(rc, false)
  {
    var f := Filter(rc, false);
    FilteredHasNoOpening(rc, false);
    BlockCounts();
    forall l
      ensures Count(f + Block(), l) == Count(f, l) + Count(Block(), l)
      ensures Count(f, l) == 0 <==> l !in f
    {
      CountAppend(f, Block(), l);
      CountZero(f, l);
    }
  }

  /** Configure can be run again exactly when the markers of the original file took turns;
      any other file the guard let through is refused from then on, by leave as well. */
  lemma RerunAcceptedIff(rc: Lines)
    requires Configure(rc).Some?
    ensures Configure(Configure(rc).value).Some? <==> Alternates(Markers(rc), false)
    ensures Leave(Configure(rc).value).Some? <==> Alternates(Markers(rc), false)
  {
    var ms := Markers(rc);
    AcceptsConfigured(rc);
    StrayIff(rc, false);
    MarkersAreMarkers(rc);
    MarkerCounts(rc, Begin);
    MarkerCounts(rc, End);
    MarkerCounts(rc, LegacyBegin);
    MarkerCounts(rc, LegacyEnd);
    CountKinds(ms);
    if Closed(ms, false) {
      ClosedAlternates(ms, false);
    }
    if Alternates(ms, false) {
      AlternatesCloses(ms, false);
    }
  }

  // ---------------------------------------------------------------- leave after configure

  /** Lines without any marker. */
  ghost predicate Plain(ls: Lines) {
    forall l :: l in ls ==> !Opens(l) && !Closes(l)
  }

  /** A file as its owner sees it: plain lines and closed blocks, in any order. */
  datatype Piece = Own(lines: Lines) | ManagedBlock(body: Lines) | LegacyBlock(body: Lines)

  function Render(p: Piece): Lines {
    match p
    case Own(lines) => lines
    case ManagedBlock(body) => [Begin] + body + [End]
    case LegacyBlock(body) => [LegacyBegin] + body + [LegacyEnd]
  }

  function File(ps: seq<Piece>): Lines {
    if ps == [] then [] else Render(ps[0]) + File(ps[1..])
  }

  /** The lines outside the blocks, in order. */
  function Outside(ps: seq<Piece>): Lines {
    if ps == [] then [] else (if ps[0].Own? then ps[0].lines else []) + Outside(ps[1..])
  }

  function Managed(ps: seq<Piece>): nat {
    if ps == [] then 0 else (if ps[0].ManagedBlock? then 1 else 0) + Managed(ps[1..])
  }

  function Legacy(ps: seq<Piece>): nat {
    if ps == [] then 0 else (if ps[0].LegacyBlock? then 1 else 0) + Legacy(ps[1..])
  }

  /** Markers occur only as the borders of the blocks. */
  ghost predicate Tidy(ps: seq<Piece>) {
    forall i :: 0 <= i < |ps| ==> Plain(if ps[i].Own? then ps[i].lines else ps[i].body)
  }

  lemma {:induction false} SkipPlain(x: Lines)
    requires Plain(x)
    ensures Filter(x, true) == [] && After(x, true)
  {
    if x != [] {
      assert x[0] in x;
      SkipPlain(x[1..]);
    }
  }

  lemma OneBlock(open: Line, x: Lines, close: Line)
    requires Opens(open) && Closes(close) && Plain(x)
    ensures Filter([open] + x + [close], false) == [] && !After([open] + x + [close], false)
  {
    var b := [open] + x + [close];
    assert b[1..] == x + [close];
    SkipPlain(x);
    FilterAppend(x, [close], true);
    AfterAppend(x, [close], true);
    assert Filter([close], true) == [] && !After([close], true);
  }

  lemma {:induction false} AfterAppend(a: Lines, b: Lines, skipping: bool)
    ensures After(a + b, skipping) == After(b, After(a, skipping))
  {
    if a == [] {
      assert a + b == b;
    } else {
      assert (a + b)[0] == a[0] && (a + b)[1..] == a[1..] + b;
      AfterAppend(a[1..], b, if Opens(a[0]) then true else if Closes(a[0]) then false else skipping);
    }
  }

  lemma PieceFiltered(p: Piece)
    requires Plain(if p.Own? then p.lines else p.body)
    ensures Filter(Render(p), false) == (if p.Own? then p.lines else []) && !After(Render(p), false)
  {
    match p
    case Own(lines) => FilterKeepsPlain(lines);
    case ManagedBlock(body) => OneBlock(Begin, body, End);
    case LegacyBlock(body) => OneBlock(LegacyBegin, body, LegacyEnd);
  }

  /** The filter keeps exactly the lines outside the blocks, in order. */
  lemma {:induction false} FilterKeepsOutside(ps: seq<Piece>)
    requires Tidy(ps)
    ensures Filter(File(ps), false) == Outside(ps) && Plain(Outside(ps))
  {
    if ps != [] {
      PieceFiltered(ps[0]);
      FilterKeepsOutside(ps[1..]);
      FilterAppend(Render(ps[0]), File(ps[1..]), false);
    }
  }

  function Same(x: Line, m: Line): nat {
    if x == m then 1 else 0
  }

  lemma PieceCounts(p: Piece, m: Line)
    requires Plain(if p.Own? then p.lines else p.body) && (Opens(m) || Closes(m))
    ensures Count(Render(p), m) ==
            if p.ManagedBlock? then Same(Begin, m) + Same(End, m)
            else if p.LegacyBlock? then Same(LegacyBegin, m) + Same(LegacyEnd, m) else 0
  {
    if p.Own? {
      CountZero(p.lines, m);
    } else {
      var open := if p.ManagedBlock? then Begin else LegacyBegin;
      var close := if p.ManagedBlock? then End else LegacyEnd;
      CountZero(p.body, m);
      CountAppend([open] + p.body, [close], m);
      CountAppend([open], p.body, m);
      assert [open][1..] == [] && [close][1..] == [];
    }
  }

  lemma {:induction false} FileCounts(ps: seq<Piece>)
    requires Tidy(ps)
    ensures Count(File(ps), Begin) == Count(File(ps), End) == Managed(ps)
    ensures Count(File(ps), LegacyBegin) == Count(File(ps), LegacyEnd) == Legacy(ps)
  {
    if ps != [] {
      FileCounts(ps[1..]);
      forall m | Opens(m) || Closes(m)
        ensures Count(File(ps), m) == Count(Render(ps[0]), m) + Count(File(ps[1..]), m)
        ensures Count(Render(ps[0]), m) ==
                if ps[0].ManagedBlock? then Same(Begin, m) + Same(End, m)
                else if ps[0].LegacyBlock? then Same(LegacyBegin, m) + Same(LegacyEnd, m) else 0
      {
        CountAppend(Render(ps[0]), File(ps[1..]), m);
        PieceCounts(ps[0], m);
      }
    }
  }

  /** Leave undoes configure: for a file with at most one managed and one legacy block, each
      closed and apart from the other, both scripts are accepted, configure is idempotent, and
      what leave gives back are exactly the lines outside the blocks, in order. */
  lemma LeaveUndoesConfigure(ps: seq<Piece>)
    requires Tidy(ps) && Managed(ps) <= 1 && Legacy(ps) <= 1
    ensures Configure(File(ps)) == Some(Outside(ps) + Block())
    ensures Configure(Outside(ps) + Block()) == Configure(File(ps))
    ensures Leave(Outside(ps) + Block()) == Some(Outside(ps))
    ensures Managed(ps) + Legacy(ps) > 0 ==> Leave(File(ps)) == Some(Outside(ps))
  {
    FileCounts(ps);
    FilterKeepsOutside(ps);
    AcceptsConfigured(File(ps));
    FilterUndoesBlock(File(ps));
    BlockCounts();
    CountAppend(Outside(ps), Block(), Begin);
  }

  /** The guard of both scripts, for files made of closed blocks: at most one of each kind. */
  lemma BlocksAcceptedIff(ps: seq<Piece>)
    requires Tidy(ps)
    ensures Configure(File(ps)).Some? <==> Managed(ps) <= 1 && Legacy(ps) <= 1
    ensures Leave(File(ps)).Some? <==> Managed(ps) <= 1 && Legacy(ps) <= 1
    ensures Managed(ps) == Legacy(ps) == 0 ==> Leave(File(ps)) == Some(File(ps))
  {
    FileCounts(ps);
  }

  /** The four lines that configure appends: between the markers, the environment file is
      sourced if it can be read. */
  lemma WhatConfigureAppends(rc: Lines)
    requires Configure(rc).Some?
    ensures Configure(rc).value == Filter(rc, false) + Block() && |Block()| == 4
    ensures Text(Block()[0]) == "# >>> pto-auth-proxy managed environment >>>"
    ensures var file := "${XDG_CONFIG_HOME:-$HOME/.config}/pto-auth-proxy/env.sh";
            && Text(Block()[1]) == "[ -r \"" + file + "\" ] && \\"
            && Text(Block()[2]) == "    . \"" + file + "\""
    ensures Text(Block()[3]) == "# <<< pto-auth-proxy managed environment <<<"
  {
  }

  /** A file with more opening than closing markers of a kind, or the other way round, is
      refused by both scripts. */
  lemma UnbalancedIsRefused(rc: Lines)
    requires Count(rc, Begin) != Count(rc, End) || Count(rc, LegacyBegin) != Count(rc, LegacyEnd)
    ensures Configure(rc).None? && Leave(rc).None?
  {
  }

  /** `grep -Fxc` counts lines: one by one. */
  lemma CountIs(a: Lines, l: Line, b: Lines, m: Line)
    ensures Count(a + [l] + b, m) == Count(a, m) + (if l == m then 1 else 0) + Count(b, m)
    ensures Count([], m) == 0
  {
    CountAppend(a + [l], b, m);
    CountAppend(a, [l], m);
    assert [l][1..] == [];
  }

  /** The guard also lets through a closing marker before the opening one. The filter then
      drops every line after the opening marker, and both scripts refuse the result. */
  lemma MisorderedMarkersLoseLines(keep: Line, lost: Line)
    requires Plain([keep, lost])
    ensures var rc := [End, keep, Begin, lost];
            && Configure(rc) == Some([End, keep] + Block())
            && Configure([End, keep] + Block()).None?
            && Leave([End, keep] + Block()).None?
  {
    var rc := [End, keep, Begin, lost];
    assert keep in [keep, lost] && lost in [keep, lost];
    assert rc[1..] == [keep, Begin, lost] && rc[1..][1..] == [Begin, lost];
    assert rc[1..][1..][1..] == [lost] && rc[1..][1..][1..][1..] == [];
    assert Filter([lost], true) == [];
    assert Filter([Begin, lost], false) == [];
    assert Filter([keep, Begin, lost], false) == [keep] + [];
    assert Filter(rc, false) == [End] + ([keep] + []) == [End, keep];
    forall m
      ensures Count(rc, m) == Count([End], m) + Count([keep], m) + Count([Begin], m) + Count([lost], m)
    {
      assert rc == [End] + [keep] + [Begin] + [lost];
      CountAppend([End], [keep], m);
      CountAppend([End] + [keep], [Begin], m);
      CountAppend([End] + [keep] + [Begin], [lost], m);
    }
    AcceptsConfigured(rc);
    assert End in Filter(rc, false);
  }
}
