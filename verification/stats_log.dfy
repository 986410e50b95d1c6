/** The statistics log of auth_proxy.py: the backward chunked reader `_iter_recent_stats`
    and the download ranking built on it.

    JSON decoding is a parameter: any function from the bytes of a line to a parsed value.
 */
module StatsLog {
  import opened Options
  import opened Bytes

  const CHUNK: nat := 2 * 1024 * 1024

  /** The fields that the readers use. `user` is None when it is missing or empty;
      `bytesDown` is None when the value cannot be converted to an integer. */
  datatype Entry = Entry(ts: int, user: Option<string>, bytesDown: Option<int>)

  /** What json.loads makes of a line. `Odd` is JSON whose `.get("ts", 0)` comparison raises. */
  datatype Parsed = Unparsable | Row(entry: Entry) | Odd

  type Parser = bytes -> Parsed

  // ---------------------------------------------------------------- the forward reading

  function Decode(parse: Parser, line: bytes): seq<Parsed> {
    if parse(line) == Unparsable then [] else [parse(line)]
  }

  /** Lines after the first: stripped, blank and undecodable ones skipped. */
  function LineRows(parse: Parser, lines: seq<bytes>): seq<Parsed> {
    if lines == [] then [] else
      (if Strip(lines[0]) == [] then [] else Decode(parse, Strip(lines[0]))) + LineRows(parse, lines[1..])
  }

  /** The first line of the file is decoded as it stands. */
  function FirstRow(parse: Parser, line: bytes): seq<Parsed> {
    if Strip(line) == [] then [] else Decode(parse, line)
  }

  /** The plain reading of the whole file from its start, line by line. */
  function Forward(parse: Parser, file: bytes): seq<Parsed> {
    FirstRow(parse, SplitLines(file)[0]) + LineRows(parse, SplitLines(file)[1..])
  }

  /** The final loop: entries not older than `since`, up to the first value that raises. */
  function Emit(rows: seq<Parsed>, since: int): (r: (seq<Entry>, bool))
  {
    if rows == [] then ([], false)
    else
      match rows[0]
      case Unparsable => Emit(rows[1..], since)
      case Odd => ([], true)
      case Row(e) =>
        var rest := Emit(rows[1..], since);
        (if e.ts >= since then [e] + rest.0 else rest.0, rest.1)
  }

  /** What is yielded, piece by piece: up to a row that raises, the recent entries in order. */
  lemma {:induction false} EmitIs(a: seq<Parsed>, row: Parsed, b: seq<Parsed>, since: int)
    requires forall i :: 0 <= i < |a| ==> a[i].Row?
    ensures row.Row? ==>
              Emit(a + [row] + b, since) ==
              (Emit(a, since).0 + (if row.entry.ts >= since then [row.entry] else []) + Emit(b, since).0, Emit(b, since).1)
    ensures row.Odd? ==> Emit(a + [row] + b, since) == (Emit(a, since).0, true)
    ensures Emit([], since) == ([], false)
  {
    var all := a + [row] + b;
    if a == [] {
      assert all[0] == row && all[1..] == b;
      if row.Row? {
        var mid := if row.entry.ts >= since then [row.entry] else [];
        assert Emit(all, since).0 == mid + Emit(b, since).0 == [] + mid + Emit(b, since).0;
      }
    } else {
      assert all[0] == a[0] && all[1..] == a[1..] + [row] + b;
      EmitIs(a[1..], row, b, since);
      if row.Row? && a[0].entry.ts >= since {
        var mid := if row.entry.ts >= since then [row.entry] else [];
        assert Emit(all, since).0 == [a[0].entry] + Emit(all[1..], since).0;
        assert [a[0].entry] + (Emit(a[1..], since).0 + mid + Emit(b, since).0)
               == ([a[0].entry] + Emit(a[1..], since).0) + mid + Emit(b, since).0;
      }
    }
  }

  /** What one line adds: a blank line nothing, any other line its decoded core if it can be
      decoded; the first line of the file is decoded as it stands. */
  lemma {:induction false} LineRowsIs(parse: Parser, a: seq<bytes>, lead: bytes, core: bytes, trail: bytes,
                                       b: seq<bytes>)
    requires IsBlank(lead) && IsBlank(trail) && IsTrimmed(core)
    ensures LineRows(parse, a + [lead + core + trail] + b) ==
            LineRows(parse, a)
            + (if core == [] || parse(core) == Unparsable then [] else [parse(core)])
            + LineRows(parse, b)
    ensures FirstRow(parse, lead + core + trail) ==
            if core == [] || parse(lead + core + trail) == Unparsable then [] else [parse(lead + core + trail)]
    ensures LineRows(parse, []) == []
  {
    var line: seq<bytes> := [lead + core + trail];
    StripIs(lead, core, trail);
    LineRowsAppend(parse, a + line, b);
    LineRowsAppend(parse, a, line);
    assert line[1..] == [];
  }

  /** The forward reading of a file, line by line. */
  lemma {:induction false} ForwardIs(parse: Parser, first: bytes, others: seq<bytes>)
    requires 10 !in first && forall i :: 0 <= i < |others| ==> 10 !in others[i]
    ensures Forward(parse, Join([first] + others, 10)) == FirstRow(parse, first) + LineRows(parse, others)
  {
    var lines := [first] + others;
    SplitUndoesJoin(lines, LF);
    assert lines[0] == first && lines[1..] == others;
    assert SplitLines(Join(lines, LF)) == lines;
  }

  /** The reading may start at row `k` only if row `k` ends the search for older rows. */
  predicate StopsAt(rows: seq<Parsed>, k: nat, since: int) {
    k == 0 || (k < |rows| && (rows[k].Odd? || (rows[k].Row? && rows[k].entry.ts < since)))
  }

  ghost predicate AllRows(rows: seq<Parsed>) {
    forall i :: 0 <= i < |rows| ==> rows[i].Row?
  }

  ghost predicate Nondecreasing(rows: seq<Parsed>) {
    && AllRows(rows)
    && forall i, j :: 0 <= i < j < |rows| ==> rows[i].entry.ts <= rows[j].entry.ts
  }

  lemma {:induction false} LineRowsAppend(parse: Parser, a: seq<bytes>, b: seq<bytes>)
    ensures LineRows(parse, a + b) == LineRows(parse, a) + LineRows(parse, b)
  {
    if a == [] {
      assert a + b == b;
    } else {
      LineRowsAppend(parse, a[1..], b);
      assert (a + b)[0] == a[0] && (a + b)[1..] == a[1..] + b;
      var first := if Strip(a[0]) == [] then [] else Decode(parse, Strip(a[0]));
      assert first + (LineRows(parse, a[1..]) + LineRows(parse, b)) == (first + LineRows(parse, a[1..])) + LineRows(parse, b);
    }
  }

  /** The rows of the complete lines from offset `pos` on. */
  function RowsFrom(parse: Parser, file: bytes, pos: nat): seq<Parsed>
    requires pos <= |file|
  {
    LineRows(parse, SplitLines(file[pos..])[1..])
  }

  /** They are the last rows of the file. */
  lemma TailRows(parse: Parser, file: bytes, pos: nat)
    requires pos <= |file|
    ensures var all, rows := Forward(parse, file), RowsFrom(parse, file, pos);
            |rows| <= |all| && all[|all| - |rows|..] == rows
  {
    var tail := SplitLines(file[pos..]);
    assert file == file[..pos] + file[pos..];
    SplitPrepend(file[..pos], file[pos..]);
    var head := SplitLines(file[..pos] + tail[0]);
    assert SplitLines(file) == head + tail[1..];
    assert SplitLines(file)[0] == head[0];
    assert SplitLines(file)[1..] == head[1..] + tail[1..];
    LineRowsAppend(parse, head[1..], tail[1..]);
    assert Forward(parse, file) == (FirstRow(parse, head[0]) + LineRows(parse, head[1..])) + LineRows(parse, tail[1..]);
  }

  /** One more chunk in front: the new complete lines come before the ones already read. */
  lemma ChunkStep(parse: Parser, data: bytes, seen: bytes)
    ensures var lines := SplitLines(data + SplitLines(seen)[0]);
            && SplitLines(data + seen)[0] == lines[0]
            && LineRows(parse, SplitLines(data + seen)[1..])
               == LineRows(parse, lines[1..]) + LineRows(parse, SplitLines(seen)[1..])
  {
    var lines := SplitLines(data + SplitLines(seen)[0]);
    SplitPrepend(data, seen);
    assert SplitLines(data + seen)[1..] == lines[1..] + SplitLines(seen)[1..];
    LineRowsAppend(parse, lines[1..], SplitLines(seen)[1..]);
  }

  // ---------------------------------------------------------------- where the reader stops

  /** The test of the loop guard: stop at a row older than `since`, or raise at an odd one. */
  predicate IsBefore(row: Parsed, since: int) {
    row.Odd? || (row.Row? && row.entry.ts < since)
  }

  /** The backward search ends at this offset. */
  predicate Ends(parse: Parser, file: bytes, since: int, pos: nat)
    requires pos <= |file|
  {
    pos == 0 || (RowsFrom(parse, file, pos) != [] && IsBefore(RowsFrom(parse, file, pos)[0], since))
  }

  function Back(pos: nat, chunk: nat): nat {
    if pos > chunk then pos - chunk else 0
  }

  /** The offset down to which a reader that is at `pos` reads the file. */
  function StopOffset(parse: Parser, file: bytes, since: int, chunk: nat, pos: nat): (stop: nat)
    requires pos <= |file| && chunk >= 1
    ensures stop <= pos && Ends(parse, file, since, stop)
    decreases pos
  {
    if Ends(parse, file, since, pos) then pos
    else StopOffset(parse, file, since, chunk, Back(pos, chunk))
  }

  /** The first row that a reader which stops at `pos` looks at: the very first one at the
      start of the file, unless it raises at an odd row before. */
  function FirstSeen(parse: Parser, file: bytes, pos: nat): (k: nat)
    requires pos <= |file|
    ensures k <= |Forward(parse, file)|
  {
    var rows := RowsFrom(parse, file, pos);
    TailRows(parse, file, pos);
    if pos == 0 && (rows == [] || !rows[0].Odd?) then 0 else |Forward(parse, file)| - |rows|
  }

  function StartRow(parse: Parser, file: bytes, since: int, chunk: nat): (k: nat)
    requires chunk >= 1
    ensures k <= |Forward(parse, file)|
  {
    FirstSeen(parse, file, StopOffset(parse, file, since, chunk, |file|))
  }

  lemma StartRowStops(parse: Parser, file: bytes, since: int, chunk: nat)
    requires chunk >= 1
    ensures StopsAt(Forward(parse, file), StartRow(parse, file, since, chunk), since)
  {
    var pos := StopOffset(parse, file, since, chunk, |file|);
    TailRows(parse, file, pos);
    var all, rows := Forward(parse, file), RowsFrom(parse, file, pos);
    if rows != [] {
      assert all[|all| - |rows|] == all[|all| - |rows|..][0];
    }
    ForwardParsed(parse, file);
  }

  // ---------------------------------------------------------------- the backward reader

  /** The inner loop over the complete lines of one chunk. */
  method ParseLines(parse: Parser, lines: seq<bytes>) returns (rows: seq<Parsed>)
    ensures rows == LineRows(parse, lines)
  {
    rows := [];
    var i := 0;
    assert lines[..0] == [] && LineRows(parse, []) == [];
    while i < |lines|
      invariant 0 <= i <= |lines|
      invariant rows == LineRows(parse, lines[..i])
    {
      ghost var one: seq<bytes> := [lines[i]];
      assert lines[..i + 1] == lines[..i] + one && one[1..] == [];
      LineRowsAppend(parse, lines[..i], one);
      var line := Strip(lines[i]);
      if line != [] {
        var value := parse(line);
        if value != Unparsable {
          rows := rows + [value];
        }
      }
      i := i + 1;
    }
    assert lines[..i] == lines;
  }

  /** What the backward loop knows about the part of the file from `pos` on. */
  ghost predicate HasRead(parse: Parser, file: bytes, pos: nat, buf: bytes, entries: seq<Parsed>) {
    && pos <= |file|
    && buf == SplitLines(file[pos..])[0]
    && entries == RowsFrom(parse, file, pos)
  }

  lemma ReadStep(parse: Parser, file: bytes, pos: nat, from: nat, buf: bytes, entries: seq<Parsed>)
    requires HasRead(parse, file, pos, buf, entries) && from <= pos
    ensures var lines := SplitLines(file[from..pos] + buf);
            HasRead(parse, file, from, lines[0], LineRows(parse, lines[1..]) + entries)
  {
    ChunkStep(parse, file[from..pos], file[pos..]);
    assert file[from..pos] + file[pos..] == file[from..];
  }

  /** Reads the file backwards in chunks until the oldest row read ends the search. */
  method ReadBackwards(parse: Parser, file: bytes, since: int, chunk: nat)
    returns (pos: nat, buf: bytes, entries: seq<Parsed>)
    requires chunk >= 1
    ensures HasRead(parse, file, pos, buf, entries)
    ensures pos == StopOffset(parse, file, since, chunk, |file|)
  {
    pos, buf, entries := |file|, [], [];
    assert file[pos..] == [];
    while pos > 0 && (entries == [] || !IsBefore(entries[0], since))
      invariant HasRead(parse, file, pos, buf, entries)
      invariant StopOffset(parse, file, since, chunk, pos) == StopOffset(parse, file, since, chunk, |file|)
      decreases pos
    {
      var from := Back(pos, chunk);
      var data := file[from..pos];
      ReadStep(parse, file, pos, from, buf, entries);
      pos := from;
      var lines := SplitLines(data + buf);
      buf := lines[0];
      var newEntries := ParseLines(parse, lines[1..]);
      entries := newEntries + entries;
    }
  }

  /** `raised` tells that the reading ended with an exception after what was yielded. */
  method IterRecentStats(parse: Parser, stats: Option<bytes>, since: int, chunk: nat)
    returns (yielded: seq<Entry>, raised: bool)
    requires chunk >= 1
    ensures stats.None? ==> yielded == [] && !raised
    ensures stats.Some? ==>
              (yielded, raised) == Emit(Forward(parse, stats.value)[StartRow(parse, stats.value, since, chunk)..], since)
    ensures stats.Some? && AllRows(Forward(parse, stats.value)) ==>
              !raised && (yielded == Emit(Forward(parse, stats.value), since).0 <==>
                          !LosesRow(Forward(parse, stats.value), StartRow(parse, stats.value, since, chunk), since))
    ensures stats.Some? && Nondecreasing(Forward(parse, stats.value)) ==>
              (yielded, raised) == Emit(Forward(parse, stats.value), since)
  {
    if stats.None? {
      return [], false;
    }
    var file := stats.value;
    ghost var all := Forward(parse, file);
    var pos, buf, entries := ReadBackwards(parse, file, since, chunk);
    ghost var k := StartRow(parse, file, since, chunk);
    TailRows(parse, file, pos);
    WhatIsLost(parse, file, since, chunk);
    if entries != [] && entries[0].Odd? {
      assert all[k..] == entries;
      return [], true;
    }
    if pos == 0 && Strip(buf) != [] {
      var value := parse(buf);
      if value != Unparsable {
        entries := [value] + entries;
      }
    }
    if pos == 0 {
      assert file[0..] == file;
      assert entries == all == all[0..];
    }
    assert entries == all[k..];
    ForwardParsed(parse, file);
    yielded, raised := YieldRecent(entries, since);
  }

  /** A row before row `k` is recent enough. */
  ghost predicate LosesRow(rows: seq<Parsed>, k: nat, since: int)
    requires k <= |rows| && AllRows(rows)
  {
    exists i :: 0 <= i < k && rows[i].entry.ts >= since
  }

  lemma WhatIsLost(parse: Parser, file: bytes, since: int, chunk: nat)
    requires chunk >= 1
    ensures var all, k := Forward(parse, file), StartRow(parse, file, since, chunk);
            && (AllRows(all) ==> !Emit(all[k..], since).1
                                 && (Emit(all[k..], since).0 == Emit(all, since).0 <==> !LosesRow(all, k, since)))
            && (Nondecreasing(all) ==> Emit(all[k..], since) == Emit(all, since))
  {
    var all, k := Forward(parse, file), StartRow(parse, file, since, chunk);
    StartRowStops(parse, file, since, chunk);
    if AllRows(all) {
      RowsNeverRaise(all, since);
      RowsNeverRaise(all[k..], since);
      SuffixLosesIff(all, k, since);
    }
    if Nondecreasing(all) {
      NothingOlderIsMissed(all, k, since);
    }
  }

  lemma {:induction false} RowsNeverRaise(rows: seq<Parsed>, since: int)
    requires AllRows(rows)
    ensures !Emit(rows, since).1
  {
    if rows != [] {
      RowsNeverRaise(rows[1..], since);
    }
  }

  lemma ForwardParsed(parse: Parser, file: bytes)
    ensures Unparsable !in Forward(parse, file)
  {
    LineRowsParsed(parse, SplitLines(file)[1..]);
  }

  lemma {:induction false} LineRowsParsed(parse: Parser, lines: seq<bytes>)
    ensures Unparsable !in LineRows(parse, lines)
  {
    if lines != [] {
      LineRowsParsed(parse, lines[1..]);
    }
  }

  method YieldRecent(rows: seq<Parsed>, since: int) returns (yielded: seq<Entry>, raised: bool)
    requires Unparsable !in rows
    ensures (yielded, raised) == Emit(rows, since)
  {
    yielded := [];
    var i := 0;
    assert rows[0..] == rows && yielded + Emit(rows, since).0 == Emit(rows, since).0;
    while i < |rows|
      invariant 0 <= i <= |rows|
      invariant Emit(rows, since) == (yielded + Emit(rows[i..], since).0, Emit(rows[i..], since).1)
    {
      assert rows[i] in rows && rows[i..][0] == rows[i];
      assert rows[i..][1..] == rows[i + 1..];
      if rows[i].Odd? {
        assert yielded + [] == yielded;
        return yielded, true;
      }
      ghost var rest := Emit(rows[i + 1..], since).0;
      assert (yielded + [rows[i].entry]) + rest == yielded + ([rows[i].entry] + rest);
      if rows[i].entry.ts >= since {
        yielded := yielded + [rows[i].entry];
      }
      i := i + 1;
    }
    assert yielded + [] == yielded;
    return yielded, false;
  }

  lemma {:induction false} EmitSkipsOld(rows: seq<Parsed>, k: nat, since: int)
    requires k <= |rows|
    requires forall i :: 0 <= i < k ==> rows[i].Row? && rows[i].entry.ts < since
    ensures Emit(rows, since) == Emit(rows[k..], since)
  {
    if k > 0 {
      EmitSkipsOld(rows[1..], k - 1, since);
      assert rows[1..][k - 1..] == rows[k..];
    }
  }

  /** With nondecreasing timestamps everything before the stopping row is too old. */
  lemma NothingOlderIsMissed(rows: seq<Parsed>, k: nat, since: int)
    requires k <= |rows| && Nondecreasing(rows) && StopsAt(rows, k, since)
    ensures Emit(rows[k..], since) == Emit(rows, since)
  {
    EmitSkipsOld(rows, k, since);
  }

  /** For any timestamps: starting at row `k` loses something exactly when an earlier row is
      recent enough, that is when the log's clock had stepped back before row `k`. */
  lemma {:induction false} SuffixLosesIff(rows: seq<Parsed>, k: nat, since: int)
    requires AllRows(rows) && k <= |rows|
    ensures Emit(rows, since) != Emit(rows[k..], since) <==> LosesRow(rows, k, since)
    ensures |Emit(rows, since).0| >= |Emit(rows[k..], since).0|
  {
    if k > 0 {
      SuffixLosesIff(rows[1..], k - 1, since);
      assert rows[1..][k - 1..] == rows[k..];
      if LosesRow(rows[1..], k - 1, since) {
        var i :| 0 <= i < k - 1 && rows[1..][i].entry.ts >= since;
        assert rows[i + 1].entry.ts >= since;
        EmitGrows(rows[1..], k - 1, since, i);
      }
    } else {
      assert rows[0..] == rows;
    }
  }

  lemma {:induction false} EmitGrows(rows: seq<Parsed>, k: nat, since: int, i: nat)
    requires AllRows(rows) && i < k <= |rows| && rows[i].entry.ts >= since
    ensures |Emit(rows, since).0| > |Emit(rows[k..], since).0|
  {
    assert rows[1..][k - 1..] == rows[k..];
    if i > 0 {
      EmitGrows(rows[1..], k - 1, since, i - 1);
    } else {
      SuffixLosesIff(rows[1..], k - 1, since);
    }
  }

  /** If the decoder ignores surrounding whitespace, the first line is a line like any other. */
  lemma ForwardIsUniform(parse: Parser, file: bytes)
    requires forall line :: parse(Strip(line)) == parse(line)
    ensures Forward(parse, file) == LineRows(parse, SplitLines(file))
  {
  }

  // ---------------------------------------------------------------- when the reader is exact

  /** Reading backwards in chunks of this size yields what reading forwards does. */
  ghost predicate Exact(parse: Parser, file: bytes, since: int, chunk: nat)
    requires chunk >= 1
  {
    var all := Forward(parse, file);
    Emit(all[StartRow(parse, file, since, chunk)..], since) == Emit(all, since)
  }

  /** No recent row stands before an old one: the clock of the log never stepped back over
      the start of the window. */
  ghost predicate Settled(rows: seq<Parsed>, since: int)
    requires AllRows(rows)
  {
    forall i, j :: 0 <= i < j < |rows| && rows[i].entry.ts >= since ==> rows[j].entry.ts >= since
  }

  lemma SettledIsExact(parse: Parser, file: bytes, since: int, chunk: nat)
    requires chunk >= 1 && AllRows(Forward(parse, file)) && Settled(Forward(parse, file), since)
    ensures Exact(parse, file, since, chunk)
  {
    StartRowStops(parse, file, since, chunk);
    EmitSkipsOld(Forward(parse, file), StartRow(parse, file, since, chunk), since);
  }

  /** One byte further back there is one more row at most, and only behind a line break. */
  lemma RowsGrow(parse: Parser, file: bytes, pos: nat) returns (more: seq<Parsed>)
    requires 0 < pos <= |file|
    ensures RowsFrom(parse, file, pos - 1) == more + RowsFrom(parse, file, pos)
    ensures |more| <= 1 && (more != [] ==> file[pos - 1] == LF)
  {
    var lines := SplitLines(file[pos..]);
    assert file[pos - 1..][1..] == file[pos..];
    if file[pos - 1] == LF {
      assert SplitLines(file[pos - 1..])[1..] == lines;
      more := if Strip(lines[0]) == [] then [] else Decode(parse, Strip(lines[0]));
    } else {
      assert SplitLines(file[pos - 1..])[1..] == lines[1..];
      more := [];
    }
  }

  ghost predicate RecentFrom(rows: seq<Parsed>, k: int, since: int)
    requires AllRows(rows)
  {
    forall m :: 0 <= m < |rows| && k <= m ==> rows[m].entry.ts >= since
  }

  /** With chunks of one byte the search stops at the last old row, or reads everything. */
  lemma {:induction false} OneByOne(parse: Parser, file: bytes, since: int, pos: nat)
    requires pos <= |file| && AllRows(Forward(parse, file))
    requires RecentFrom(Forward(parse, file), |Forward(parse, file)| - |RowsFrom(parse, file, pos)|, since)
    ensures RecentFrom(Forward(parse, file),
                       FirstSeen(parse, file, StopOffset(parse, file, since, 1, pos)) + 1, since)
    decreases pos
  {
    var all, rows := Forward(parse, file), RowsFrom(parse, file, pos);
    TailRows(parse, file, pos);
    if pos == 0 {
      assert file[0..] == file;
      assert all == FirstRow(parse, SplitLines(file)[0]) + rows;
    } else {
      assert rows != [] ==> all[|all| - |rows|] == all[|all| - |rows|..][0];
      var more := RowsGrow(parse, file, pos);
      TailRows(parse, file, pos - 1);
      if more == [] || all[|all| - |rows| - 1].entry.ts >= since {
        OneByOne(parse, file, since, pos - 1);
      } else {
        OldRowFound(parse, file, since, pos, more);
      }
    }
  }

  lemma OldRowFound(parse: Parser, file: bytes, since: int, pos: nat, more: seq<Parsed>)
    requires 0 < pos <= |file| && AllRows(Forward(parse, file)) && !Ends(parse, file, since, pos)
    requires |more| == 1 && file[pos - 1] == LF
    requires RowsFrom(parse, file, pos - 1) == more + RowsFrom(parse, file, pos)
    requires |RowsFrom(parse, file, pos)| < |Forward(parse, file)|
    requires Forward(parse, file)[|Forward(parse, file)| - |RowsFrom(parse, file, pos)| - 1].entry.ts < since
    requires RecentFrom(Forward(parse, file), |Forward(parse, file)| - |RowsFrom(parse, file, pos)|, since)
    ensures RecentFrom(Forward(parse, file),
                       FirstSeen(parse, file, StopOffset(parse, file, since, 1, pos)) + 1, since)
  {
    var all, rows := Forward(parse, file), RowsFrom(parse, file, pos - 1);
    TailRows(parse, file, pos - 1);
    assert rows[0] == all[|all| - |rows|..][0] == all[|all| - |rows|];
    assert Ends(parse, file, since, pos - 1);
    assert StopOffset(parse, file, since, 1, pos) == pos - 1;
    if pos == 1 {
      assert file[0..] == file && SplitLines(file)[0] == [];
      assert all == rows;
    }
  }

  /** For a log of entries, whatever their timestamps: the reader is exact for every chunk size
      if and only if no recent row stands before an old one. */
  lemma {:induction false} ExactIffSettled(parse: Parser, file: bytes, since: int)
    requires AllRows(Forward(parse, file))
    ensures (forall chunk: nat :: chunk >= 1 ==> Exact(parse, file, since, chunk))
            <==> Settled(Forward(parse, file), since)
  {
    var all := Forward(parse, file);
    if Settled(all, since) {
      forall chunk: nat | chunk >= 1
        ensures Exact(parse, file, since, chunk)
      {
        SettledIsExact(parse, file, since, chunk);
      }
    } else {
      var i, j :| 0 <= i < j < |all| && all[i].entry.ts >= since && all[j].entry.ts < since;
      assert file[|file|..] == [];
      OneByOne(parse, file, since, |file|);
      assert i < StartRow(parse, file, since, 1);
      SuffixLosesIff(all, StartRow(parse, file, since, 1), since);
      assert !Exact(parse, file, since, 1);
    }
  }

  /** A log that fits into one chunk is always read completely. */
  lemma SmallLogIsExact(parse: Parser, file: bytes, since: int, chunk: nat)
    requires 1 <= chunk && |file| <= chunk && AllRows(Forward(parse, file))
    ensures Exact(parse, file, since, chunk)
  {
    assert file[|file|..] == [];
    TailRows(parse, file, 0);
    var all, rows := Forward(parse, file), RowsFrom(parse, file, 0);
    if rows != [] {
      assert rows[0] == all[|all| - |rows|..][0] == all[|all| - |rows|];
    }
    assert all[0..] == all;
  }

  // ---------------------------------------------------------------- logs that lose a row

  function Blanks(n: nat): (s: bytes)
    ensures |s| == n && forall i :: 0 <= i < n ==> s[i] == 32
  {
    seq(n, _ => 32)
  }

  /** The line `a`, a line of blanks, and the line `b`: the last chunk starts behind `a`. */
  function SteppedBack(a: bytes, b: bytes, chunk: nat): (log: bytes)
    requires chunk >= |b| + 2
    ensures |log| == |a| + 1 + chunk
  {
    a + [LF] + (Blanks(chunk - |b| - 2) + [LF] + (b + [LF] + []))
  }

  lemma {:induction false} BlankLine(s: bytes)
    requires forall i :: 0 <= i < |s| ==> s[i] == 32
    ensures LeftStrip(s) == []
  {
    if s != [] {
      BlankLine(s[1..]);
    }
  }

  lemma OneLineRows(parse: Parser, line: bytes)
    ensures LineRows(parse, [line]) == if Strip(line) == [] then [] else Decode(parse, Strip(line))
  {
    var lines: seq<bytes> := [line];
    assert lines[1..] == [];
  }

  lemma LastLines(parse: Parser, b: bytes)
    requires LF !in b
    ensures SplitLines(b + [LF] + []) == [b, []]
    ensures LineRows(parse, [b, []]) == LineRows(parse, [b])
  {
    SplitFirst(b, [], LF);
    assert SplitLines([]) == [[]];
    OneLineRows(parse, []);
    LineRowsAppend(parse, [b], [[]]);
    assert [b] + [[]] == [b, []];
  }

  lemma SteppedBackLines(a: bytes, b: bytes, chunk: nat)
    requires chunk >= |b| + 2 && LF !in a && LF !in b
    ensures var log, blanks := SteppedBack(a, b, chunk), Blanks(chunk - |b| - 2);
            SplitLines(log) == [a] + ([blanks] + [b, []]) && SplitLines(log[|a| + 1..]) == [blanks] + [b, []]
  {
    var log, blanks := SteppedBack(a, b, chunk), Blanks(chunk - |b| - 2);
    var end := b + [LF] + [];
    var later := blanks + [LF] + end;
    SplitFirst(b, [], LF);
    assert SplitLines([]) == [[]] && SplitLines(end) == [b, []];
    SplitFirst(blanks, end, LF);
    SplitFirst(a, later, LF);
    assert log[|a| + 1..] == later;
  }

  lemma SteppedBackRows(parse: Parser, a: bytes, b: bytes, recent: Entry, older: Entry, chunk: nat)
    requires chunk >= |b| + 2 && LF !in a && LF !in b && Strip(a) != [] && Strip(b) != []
    requires parse(a) == Row(recent) && parse(Strip(b)) == Row(older)
    ensures var log := SteppedBack(a, b, chunk);
            && Forward(parse, log) == [Row(recent), Row(older)]
            && RowsFrom(parse, log, |a| + 1) == [Row(older)]
  {
    var log, blanks := SteppedBack(a, b, chunk), Blanks(chunk - |b| - 2);
    SteppedBackLines(a, b, chunk);
    BlankLine(blanks);
    OneLineRows(parse, blanks);
    OneLineRows(parse, b);
    LastLines(parse, b);
    LineRowsAppend(parse, [blanks], [b, []]);
    assert SplitLines(log)[1..] == [blanks] + [b, []];
    assert SplitLines(log[|a| + 1..])[1..] == [b, []];
  }

  /** For every decoder, every recent line and every old one, and every chunk size that holds
      the old line with two line breaks, there is a log on which the recent row is lost. */
  lemma {:induction false} RecentRowIsLost(parse: Parser, a: bytes, b: bytes, recent: Entry, older: Entry,
                                           since: int, chunk: nat)
    requires chunk >= |b| + 2 && LF !in a && LF !in b && Strip(a) != [] && Strip(b) != []
    requires parse(a) == Row(recent) && parse(Strip(b)) == Row(older)
    requires older.ts < since <= recent.ts
    ensures var log := SteppedBack(a, b, chunk);
            && Forward(parse, log) == [Row(recent), Row(older)]
            && !Exact(parse, log, since, chunk)
            && Emit(Forward(parse, log), since).0 == [recent]
            && Emit(Forward(parse, log)[StartRow(parse, log, since, chunk)..], since).0 == []
  {
    var log := SteppedBack(a, b, chunk);
    SteppedBackRows(parse, a, b, recent, older, chunk);
    assert log[|log|..] == [];
    assert StopOffset(parse, log, since, chunk, |log|) == StopOffset(parse, log, since, chunk, |a| + 1) == |a| + 1;
    assert StartRow(parse, log, since, chunk) == 1;
    var all := Forward(parse, log);
    assert all[1..] == [Row(older)] && all[1..][1..] == [];
    assert Emit(all[1..], since) == ([], false);
    assert Emit(all, since).0 == [recent] + Emit(all[1..], since).0;
  }
}
