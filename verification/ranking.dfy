/** `recent_download_ranking` of auth_proxy.py: totals per user over a trailing window,
    sorted by descending bytes and then by name.
 */
module Ranking {
  import opened Options
  import opened Bytes
  import opened StatsLog

  datatype Totals = Totals(user: string, bytesDown: nat, connections: nat)

  datatype Ranked = Ranked(rank: nat, totals: Totals)

  datatype Outcome = InvalidWindow | ReaderRaised | Rows(rows: seq<Ranked>)

  // ---------------------------------------------------------------- specification

  /** The entries of the window that count: a real user and a convertible byte count. */
  predicate Counts(e: Entry, end: int) {
    e.ts <= end && e.user.Some? && e.user.value != "-" && e.bytesDown.Some?
  }

  function Counted(es: seq<Entry>, end: int): seq<Entry> {
    if es == [] then [] else
      (if Counts(es[0], end) then [es[0]] else []) + Counted(es[1..], end)
  }

  function Clamp(n: int): nat {
    if n < 0 then 0 else n
  }

  /** A user's share of a bag of entries; it does not mention their order. */
  ghost function BytesOf(es: multiset<Entry>, user: string): nat {
    if es == multiset{} then 0 else
      var e: Entry :| e in es;
      BytesOf(es - multiset{e}, user) + Weight(e, user)
  }

  function Weight(e: Entry, user: string): nat {
    if e.user == Some(user) && e.bytesDown.Some? then Clamp(e.bytesDown.value) else 0
  }

  ghost function ConnectionsOf(es: multiset<Entry>, user: string): nat {
    if es == multiset{} then 0 else
      var e: Entry :| e in es;
      ConnectionsOf(es - multiset{e}, user) + if e.user == Some(user) then 1 else 0
  }

  ghost predicate Present(es: multiset<Entry>, user: string) {
    exists e :: e in es && e.user == Some(user)
  }

  /** Code-point order on names, as Python compares strings. */
  predicate NameBefore(a: string, b: string) {
    if b == "" then false
    else if a == "" then true
    else if a[0] != b[0] then a[0] < b[0]
    else NameBefore(a[1..], b[1..])
  }

  predicate Before(a: Totals, b: Totals) {
    a.bytesDown > b.bytesDown || (a.bytesDown == b.bytesDown && NameBefore(a.user, b.user))
  }

  /** What the ranking promises about the entries that count, as a bag. */
  ghost predicate IsRanking(rows: seq<Ranked>, es: multiset<Entry>) {
    && (forall i :: 0 <= i < |rows| ==> rows[i].rank == i + 1)
    && (forall i, j :: 0 <= i < j < |rows| ==> Before(rows[i].totals, rows[j].totals))
    && (forall i :: 0 <= i < |rows| ==> RowIsRight(rows[i].totals, es))
    && (forall user :: Present(es, user) ==> exists i :: 0 <= i < |rows| && rows[i].totals.user == user)
  }

  ghost predicate RowIsRight(t: Totals, es: multiset<Entry>) {
    && Present(es, t.user)
    && t.bytesDown == BytesOf(es, t.user)
    && t.connections == ConnectionsOf(es, t.user)
  }

  // ---------------------------------------------------------------- order facts

  lemma {:induction false} NameOrderIsStrict(a: string, b: string)
    ensures !(NameBefore(a, b) && NameBefore(b, a))
    ensures a != b ==> NameBefore(a, b) || NameBefore(b, a)
    ensures !NameBefore(a, a)
  {
    if a != "" {
      if b != "" {
        NameOrderIsStrict(a[1..], b[1..]);
        if a[0] == b[0] && a != b {
          assert a == [a[0]] + a[1..] && b == [b[0]] + b[1..];
        }
      }
      NameIrreflexive(a);
    }
  }

  lemma {:induction false} NameIrreflexive(a: string)
    ensures !NameBefore(a, a)
  {
    if a != "" {
      NameIrreflexive(a[1..]);
    }
  }

  lemma {:induction false} NameOrderIsTransitive(a: string, b: string, c: string)
    requires NameBefore(a, b) && NameBefore(b, c)
    ensures NameBefore(a, c)
  {
    if a != "" && a[0] == b[0] == c[0] {
      NameOrderIsTransitive(a[1..], b[1..], c[1..]);
    }
  }

  lemma BeforeIsStrict(a: Totals, b: Totals)
    ensures !(Before(a, b) && Before(b, a))
    ensures a.user != b.user ==> Before(a, b) || Before(b, a)
  {
    NameOrderIsStrict(a.user, b.user);
  }

  lemma BeforeIsTransitive(a: Totals, b: Totals, c: Totals)
    requires Before(a, b) && Before(b, c)
    ensures Before(a, c)
  {
    if a.bytesDown == b.bytesDown == c.bytesDown {
      NameOrderIsTransitive(a.user, b.user, c.user);
    }
  }

  // ---------------------------------------------------------------- sums over bags

  lemma {:induction false} BytesOfAdd(es: multiset<Entry>, x: Entry, user: string)
    ensures BytesOf(es + multiset{x}, user) == BytesOf(es, user) + Weight(x, user)
    decreases |es|
  {
    var all := es + multiset{x};
    var e: Entry :| e in all && BytesOf(all, user) == BytesOf(all - multiset{e}, user) + Weight(e, user);
    if e == x {
      assert all - multiset{e} == es;
    } else {
      var rest := es - multiset{e};
      assert all - multiset{e} == rest + multiset{x};
      BytesOfAdd(rest, x, user);
      BytesOfAdd(rest, e, user);
      assert rest + multiset{e} == es;
    }
  }

  lemma {:induction false} ConnectionsOfAdd(es: multiset<Entry>, x: Entry, user: string)
    ensures ConnectionsOf(es + multiset{x}, user)
            == ConnectionsOf(es, user) + if x.user == Some(user) then 1 else 0
    decreases |es|
  {
    var all := es + multiset{x};
    var e: Entry :| e in all && ConnectionsOf(all, user)
                                == ConnectionsOf(all - multiset{e}, user) + if e.user == Some(user) then 1 else 0;
    if e == x {
      assert all - multiset{e} == es;
    } else {
      var rest := es - multiset{e};
      assert all - multiset{e} == rest + multiset{x};
      ConnectionsOfAdd(rest, x, user);
      ConnectionsOfAdd(rest, e, user);
      assert rest + multiset{e} == es;
    }
  }

  // ---------------------------------------------------------------- accumulation and sorting

  /** The dictionary under construction: distinct users with the right totals. */
  ghost predicate Tallies(rows: seq<Totals>, es: multiset<Entry>) {
    && (forall i, j :: 0 <= i < j < |rows| ==> rows[i].user != rows[j].user)
    && (forall i :: 0 <= i < |rows| ==> RowIsRight(rows[i], es))
    && (forall user :: Present(es, user) ==> exists i :: 0 <= i < |rows| && rows[i].user == user)
  }

  method Accumulate(entries: seq<Entry>, end: int) returns (perUser: seq<Totals>)
    ensures Tallies(perUser, multiset(Counted(entries, end)))
  {
    perUser := [];
    ghost var counted: seq<Entry> := [];
    var i := 0;
    while i < |entries|
      invariant 0 <= i <= |entries|
      invariant Tallies(perUser, multiset(counted))
      invariant Counted(entries, end) == counted + Counted(entries[i..], end)
    {
      var e := entries[i];
      assert entries[i..][1..] == entries[i + 1..];
      if Counts(e, end) {
        perUser := AddTo(perUser, e, multiset(counted));
        counted := counted + [e];
        assert multiset(counted) == multiset(counted[..|counted| - 1]) + multiset{e};
      }
      i := i + 1;
    }
    assert counted + [] == counted;
  }

  method AddTo(perUser: seq<Totals>, e: Entry, ghost es: multiset<Entry>) returns (r: seq<Totals>)
    requires Tallies(perUser, es) && e.user.Some? && e.bytesDown.Some?
    ensures Tallies(r, es + multiset{e})
  {
    var user, n := e.user.value, Clamp(e.bytesDown.value);
    var i := 0;
    while i < |perUser| && perUser[i].user != user
      invariant 0 <= i <= |perUser|
      invariant forall j :: 0 <= j < i ==> perUser[j].user != user
    {
      i := i + 1;
    }
    if i < |perUser| {
      var t := perUser[i];
      r := perUser[i := t.(bytesDown := t.bytesDown + n, connections := t.connections + 1)];
    } else {
      r := perUser + [Totals(user, n, 1)];
    }
    AddedTallies(perUser, r, e, i, es);
  }

  lemma BagAdd(es: multiset<Entry>, e: Entry, u: string)
    ensures BytesOf(es + multiset{e}, u) == BytesOf(es, u) + Weight(e, u)
    ensures ConnectionsOf(es + multiset{e}, u) == ConnectionsOf(es, u) + if e.user == Some(u) then 1 else 0
    ensures Present(es + multiset{e}, u) <==> Present(es, u) || e.user == Some(u)
    ensures !Present(es, u) ==> BytesOf(es, u) == 0 && ConnectionsOf(es, u) == 0
  {
    BytesOfAdd(es, e, u);
    ConnectionsOfAdd(es, e, u);
    PresentAdd(es, e, u);
    if !Present(es, u) {
      AbsentHasNothing(es, u);
    }
  }

  /** `r` is `perUser` with the entry added to the row of its user, row `i`. */
  lemma AddedTallies(perUser: seq<Totals>, r: seq<Totals>, e: Entry, i: nat, es: multiset<Entry>)
    requires Tallies(perUser, es) && e.user.Some? && e.bytesDown.Some?
    requires i <= |perUser| && forall j :: 0 <= j < i ==> perUser[j].user != e.user.value
    requires var n := Clamp(e.bytesDown.value);
             if i < |perUser| then
               var t := perUser[i];
               t.user == e.user.value &&
               r == perUser[i := t.(bytesDown := t.bytesDown + n, connections := t.connections + 1)]
             else r == perUser + [Totals(e.user.value, n, 1)]
    ensures Tallies(r, es + multiset{e})
  {
    forall j | 0 <= j < |r|
      ensures RowIsRight(r[j], es + multiset{e})
    {
      BagAdd(es, e, r[j].user);
      if j != i {
        assert r[j] == perUser[j];
      }
    }
    forall u | Present(es + multiset{e}, u)
      ensures exists j :: 0 <= j < |r| && r[j].user == u
    {
      PresentAdd(es, e, u);
      if Some(u) == e.user {
        assert r[i].user == u;
      } else {
        var j :| 0 <= j < |perUser| && perUser[j].user == u;
        assert r[j].user == u;
      }
    }
  }

  lemma PresentAdd(es: multiset<Entry>, e: Entry, user: string)
    ensures Present(es + multiset{e}, user) <==> Present(es, user) || e.user == Some(user)
  {
    if Present(es, user) {
      var x :| x in es && x.user == Some(user);
      assert x in es + multiset{e};
    }
    if e.user == Some(user) {
      assert e in es + multiset{e};
    }
  }

  lemma {:induction false} AbsentHasNothing(es: multiset<Entry>, user: string)
    requires !Present(es, user)
    ensures BytesOf(es, user) == 0 && ConnectionsOf(es, user) == 0
    decreases |es|
  {
    if es != multiset{} {
      forall e: Entry | e in es
        ensures BytesOf(es - multiset{e}, user) == 0 && ConnectionsOf(es - multiset{e}, user) == 0
      {
        AbsentHasNothing(es - multiset{e}, user);
      }
    }
  }

  ghost predicate Sorted(rows: seq<Totals>) {
    forall i, j :: 0 <= i < j < |rows| ==> Before(rows[i], rows[j])
  }

  /** `sorted(...)` with the key (-bytes, name), as insertion into the sorted prefix. */
  function Insert(t: Totals, rows: seq<Totals>): seq<Totals> {
    if rows == [] then [t]
    else if Before(t, rows[0]) then [t] + rows
    else [rows[0]] + Insert(t, rows[1..])
  }

  function Sort(rows: seq<Totals>): seq<Totals> {
    if rows == [] then [] else Insert(rows[0], Sort(rows[1..]))
  }

  lemma {:induction false} InsertFacts(t: Totals, rows: seq<Totals>)
    requires Sorted(rows) && forall i :: 0 <= i < |rows| ==> rows[i].user != t.user
    ensures Sorted(Insert(t, rows))
    ensures forall x :: x in Insert(t, rows) <==> x == t || x in rows
  {
    if rows != [] {
      assert rows == [rows[0]] + rows[1..];
      BeforeIsStrict(t, rows[0]);
      if Before(t, rows[0]) {
        forall j | 0 <= j < |rows|
          ensures Before(t, rows[j])
        {
          if j > 0 { BeforeIsTransitive(t, rows[0], rows[j]); }
        }
      } else {
        var rest := rows[1..];
        InsertFacts(t, rest);
        var r := Insert(t, rest);
        forall j | 0 <= j < |r|
          ensures Before(rows[0], r[j])
        {
          assert r[j] in r;
          if r[j] != t {
            var m :| 0 <= m < |rest| && rest[m] == r[j];
            assert rows[m + 1] == r[j];
          }
        }
      }
    }
  }

  lemma {:induction false} SortFacts(rows: seq<Totals>)
    requires forall i, j :: 0 <= i < j < |rows| ==> rows[i].user != rows[j].user
    ensures Sorted(Sort(rows))
    ensures forall x :: x in Sort(rows) <==> x in rows
  {
    if rows != [] {
      var rest := rows[1..];
      assert rows == [rows[0]] + rest;
      SortFacts(rest);
      forall i | 0 <= i < |Sort(rest)|
        ensures Sort(rest)[i].user != rows[0].user
      {
        assert Sort(rest)[i] in rest;
        var m :| 0 <= m < |rest| && rest[m] == Sort(rest)[i];
        assert rows[m + 1] == rest[m];
      }
      InsertFacts(rows[0], Sort(rest));
    }
  }

  ghost predicate SortedLog(parse: Parser, stats: Option<bytes>) {
    stats.Some? && Nondecreasing(Forward(parse, stats.value))
  }

  /** What the tail reader yields of a log, and whether it ends with an exception. */
  function Yielded(parse: Parser, file: bytes, since: int): (seq<Entry>, bool) {
    Emit(Forward(parse, file)[StartRow(parse, file, since, 2097152)..], since)
  }

  /** The entries of the window, as the tail reader yields them. */
  method ReadWindow(parse: Parser, stats: Option<bytes>, since: int) returns (entries: seq<Entry>, raised: bool)
    ensures stats.None? ==> entries == [] && !raised
    ensures stats.Some? ==> (entries, raised) == Yielded(parse, stats.value, since)
    ensures SortedLog(parse, stats) ==> !raised && entries == Emit(Forward(parse, stats.value), since).0
  {
    entries, raised := IterRecentStats(parse, stats, since, CHUNK);
    if SortedLog(parse, stats) {
      RowsNeverRaise(Forward(parse, stats.value), since);
    }
  }

  method RecentDownloadRanking(parse: Parser, stats: Option<bytes>, window: int, end: int) returns (r: Outcome)
    ensures window <= 0 <==> r.InvalidWindow?
    ensures window > 0 && stats.None? ==> r.Rows? && IsRanking(r.rows, multiset{})
    ensures window > 0 && stats.Some? ==>
              var (entries, raised) := Yielded(parse, stats.value, end - window);
              if raised then r.ReaderRaised? else r.Rows? && IsRanking(r.rows, multiset(Counted(entries, end)))
    ensures window > 0 && SortedLog(parse, stats) ==>
              RanksLog(r, Forward(parse, stats.value), end - window, end)
  {
    if window <= 0 {
      return InvalidWindow;
    }
    var entries, raised := ReadWindow(parse, stats, end - window);
    if raised {
      return ReaderRaised;
    }
    var rows := RankEntries(entries, end);
    r := Rows(rows);
  }

  /** The outcome is the ranking of the counted entries of the whole log. */
  ghost predicate RanksLog(r: Outcome, log: seq<Parsed>, since: int, end: int) {
    r.Rows? && IsRanking(r.rows, multiset(Counted(Emit(log, since).0, end)))
  }

  method RankEntries(entries: seq<Entry>, end: int) returns (rows: seq<Ranked>)
    ensures IsRanking(rows, multiset(Counted(entries, end)))
  {
    var perUser := Accumulate(entries, end);
    var sorted := Sort(perUser);
    SortFacts(perUser);
    rows := Number(sorted);
    SortedTalliesRank(perUser, sorted, rows, multiset(Counted(entries, end)));
  }

  /** `enumerate(..., start=1)` */
  function Number(rows: seq<Totals>): (r: seq<Ranked>)
    ensures |r| == |rows|
    ensures forall i :: 0 <= i < |rows| ==> r[i] == Ranked(i + 1, rows[i])
  {
    seq(|rows|, i requires 0 <= i < |rows| => Ranked(i + 1, rows[i]))
  }

  lemma SortedTalliesRank(perUser: seq<Totals>, sorted: seq<Totals>, rows: seq<Ranked>, es: multiset<Entry>)
    requires Tallies(perUser, es) && Sorted(sorted) && rows == Number(sorted)
    requires forall x :: x in sorted <==> x in perUser
    ensures IsRanking(rows, es)
  {
    forall i | 0 <= i < |rows|
      ensures RowIsRight(rows[i].totals, es)
    {
      assert sorted[i] in perUser;
    }
    forall user | Present(es, user)
      ensures exists i :: 0 <= i < |rows| && rows[i].totals.user == user
    {
      var m :| 0 <= m < |perUser| && perUser[m].user == user;
      assert perUser[m] in sorted;
      var i :| 0 <= i < |sorted| && sorted[i] == perUser[m];
      assert rows[i].totals.user == user;
    }
  }

  // ---------------------------------------------------------------- uniqueness

  ghost function RowSet(rows: seq<Ranked>): set<Totals> {
    set i | 0 <= i < |rows| :: rows[i].totals
  }

  lemma RankingRows(a: seq<Ranked>, b: seq<Ranked>, es: multiset<Entry>)
    requires IsRanking(a, es) && IsRanking(b, es)
    ensures RowSet(a) <= RowSet(b)
  {
    forall t | t in RowSet(a)
      ensures t in RowSet(b)
    {
      var i :| 0 <= i < |a| && a[i].totals == t;
      var j :| 0 <= j < |b| && b[j].totals.user == t.user;
      assert b[j].totals == t;
    }
  }

  ghost predicate StrictlyOrdered(rows: seq<Ranked>) {
    forall i, j :: 0 <= i < j < |rows| ==> Before(rows[i].totals, rows[j].totals)
  }

  lemma FirstIsFirst(a: seq<Ranked>, b: seq<Ranked>)
    requires StrictlyOrdered(a) && StrictlyOrdered(b) && RowSet(a) == RowSet(b) && a != []
    ensures b != [] && a[0].totals == b[0].totals
  {
    assert a[0].totals in RowSet(b);
    var j :| 0 <= j < |b| && b[j].totals == a[0].totals;
    assert b[0].totals in RowSet(a);
    var i :| 0 <= i < |a| && a[i].totals == b[0].totals;
    BeforeIsStrict(a[0].totals, b[0].totals);
  }

  lemma RestOfRows(a: seq<Ranked>)
    requires StrictlyOrdered(a) && a != []
    ensures StrictlyOrdered(a[1..]) && RowSet(a[1..]) == RowSet(a) - {a[0].totals}
  {
    var rest := a[1..];
    forall t | t in RowSet(a) - {a[0].totals}
      ensures t in RowSet(rest)
    {
      var i :| 0 <= i < |a| && a[i].totals == t;
      assert rest[i - 1].totals == t;
    }
    forall i | 0 <= i < |rest|
      ensures rest[i].totals != a[0].totals
    {
      BeforeIsStrict(a[0].totals, a[i + 1].totals);
    }
  }

  lemma {:induction false} SameRows(a: seq<Ranked>, b: seq<Ranked>)
    requires StrictlyOrdered(a) && StrictlyOrdered(b) && RowSet(a) == RowSet(b)
    ensures |a| == |b| && forall i :: 0 <= i < |a| ==> a[i].totals == b[i].totals
  {
    if a == [] {
      if b != [] {
        FirstIsFirst(b, a);
      }
    } else {
      FirstIsFirst(a, b);
      RestOfRows(a);
      RestOfRows(b);
      SameRows(a[1..], b[1..]);
      forall i | 0 <= i < |a|
        ensures a[i].totals == b[i].totals
      {
        if i > 0 { assert a[1..][i - 1] == a[i] && b[1..][i - 1] == b[i]; }
      }
    }
  }

  lemma {:induction false} CountedBag(es: seq<Entry>, end: int, x: Entry)
    ensures multiset(Counted(es, end))[x] == if Counts(x, end) then multiset(es)[x] else 0
  {
    if es != [] {
      CountedBag(es[1..], end, x);
      assert es == [es[0]] + es[1..];
    }
  }

  lemma SameRanking(a: seq<Ranked>, b: seq<Ranked>, es: multiset<Entry>)
    requires IsRanking(a, es) && IsRanking(b, es)
    ensures a == b
  {
    assert RowSet(a) == RowSet(b) by {
      RankingRows(a, b, es);
      RankingRows(b, a, es);
    }
    SameRows(a, b);
    forall i | 0 <= i < |a|
      ensures a[i] == b[i]
    {
    }
  }

  lemma SameBags(es: seq<Entry>, permuted: seq<Entry>, end: int)
    requires multiset(es) == multiset(permuted)
    ensures multiset(Counted(es, end)) == multiset(Counted(permuted, end))
  {
    forall x: Entry
      ensures multiset(Counted(es, end))[x] == multiset(Counted(permuted, end))[x]
    {
      CountedBag(es, end, x);
      CountedBag(permuted, end, x);
    }
  }

  /** The specification determines the ranking, and permuting the entries that the reader
      yields cannot change it. */
  lemma {:induction false} RankingIsDetermined(a: seq<Ranked>, b: seq<Ranked>, es: seq<Entry>, permuted: seq<Entry>, end: int)
    requires multiset(es) == multiset(permuted)
    requires IsRanking(a, multiset(Counted(es, end))) && IsRanking(b, multiset(Counted(permuted, end)))
    ensures a == b
  {
    SameBags(es, permuted, end);
    SameRanking(a, b, multiset(Counted(es, end)));
  }

  // ---------------------------------------------------------------- the rows in plain terms

  /** An entry counts for a user if it is not later than the end of the window and its byte
      count can be converted. */
  predicate CountsFor(e: Entry, user: string, end: int) {
    e.ts <= end && e.user == Some(user) && e.bytesDown.Some?
  }

  /** A user's bytes in the window; negative counts are taken as nothing. */
  function BytesInWindow(es: seq<Entry>, user: string, end: int): nat {
    if es == [] then 0 else
      (if CountsFor(es[0], user, end) && es[0].bytesDown.value > 0 then es[0].bytesDown.value else 0)
      + BytesInWindow(es[1..], user, end)
  }

  function ConnectionsInWindow(es: seq<Entry>, user: string, end: int): nat {
    if es == [] then 0 else
      (if CountsFor(es[0], user, end) then 1 else 0) + ConnectionsInWindow(es[1..], user, end)
  }

  lemma {:induction false} CountedBagCons(e: Entry, rest: seq<Entry>, end: int, user: string)
    requires user != "-"
    ensures BytesOf(multiset(Counted([e] + rest, end)), user) ==
            BytesOf(multiset(Counted(rest, end)), user)
            + (if CountsFor(e, user, end) && e.bytesDown.value > 0 then e.bytesDown.value else 0)
    ensures ConnectionsOf(multiset(Counted([e] + rest, end)), user) ==
            ConnectionsOf(multiset(Counted(rest, end)), user) + (if CountsFor(e, user, end) then 1 else 0)
  {
    assert ([e] + rest)[1..] == rest;
    var counted := Counted(rest, end);
    if Counts(e, end) {
      assert multiset([e] + counted) == multiset(counted) + multiset{e};
      BytesOfAdd(multiset(counted), e, user);
      ConnectionsOfAdd(multiset(counted), e, user);
    } else {
      assert [] + counted == counted;
    }
  }

  lemma {:induction false} BagIsWindow(es: seq<Entry>, user: string, end: int)
    requires user != "-"
    ensures BytesOf(multiset(Counted(es, end)), user) == BytesInWindow(es, user, end)
    ensures ConnectionsOf(multiset(Counted(es, end)), user) == ConnectionsInWindow(es, user, end)
  {
    if es == [] {
      assert multiset(Counted(es, end)) == multiset{};
    } else {
      var e, rest := es[0], es[1..];
      assert es == [e] + rest;
      BagIsWindow(rest, user, end);
      CountedBagCons(e, rest, end, user);
    }
  }

  lemma {:induction false} CountedMember(es: seq<Entry>, end: int, e: Entry)
    ensures e in Counted(es, end) <==>
            e in es && e.ts <= end && e.user.Some? && e.user.value != "-" && e.bytesDown.Some?
  {
    if es != [] {
      CountedMember(es[1..], end, e);
      assert es == [es[0]] + es[1..];
    }
  }

  /** The first difference decides, and a name comes before its extensions. */
  lemma {:induction false} NameOrderIs(a: string, b: string)
    ensures NameBefore(a, b) <==>
            exists k :: 0 <= k <= |a| && k < |b| && a[..k] == b[..k] && (k == |a| || a[k] < b[k])
  {
    if a != "" && b != "" && a[0] == b[0] {
      NameOrderIs(a[1..], b[1..]);
      if k :| 0 <= k <= |a[1..]| && k < |b[1..]| && a[1..][..k] == b[1..][..k] && (k == |a[1..]| || a[1..][k] < b[1..][k]) {
        assert a[..k + 1] == [a[0]] + a[1..][..k] && b[..k + 1] == [b[0]] + b[1..][..k];
      }
      if k :| 0 <= k <= |a| && k < |b| && a[..k] == b[..k] && (k == |a| || a[k] < b[k]) {
        assert a[1..][..k - 1] == a[..k][1..] && b[1..][..k - 1] == b[..k][1..];
      }
    } else if a != "" && b != "" {
      assert a[..0] == b[..0];
      if k :| 0 <= k <= |a| && k < |b| && a[..k] == b[..k] && (k == |a| || a[k] < b[k]) {
        assert k > 0 ==> a[..k][0] == b[..k][0];
      }
    } else if b != "" {
      assert a[..0] == b[..0];
    }
  }

  /** What a ranking says: one row for every user with a convertible entry in the window, and
      none for "-"; its totals are the sums over the window; larger totals come first, and names
      in order among equal ones; the ranks count from one. */
  lemma {:induction false} RankingInPlainTerms(rows: seq<Ranked>, es: seq<Entry>, end: int)
    requires IsRanking(rows, multiset(Counted(es, end)))
    ensures forall i :: 0 <= i < |rows| ==>
              && rows[i].rank == i + 1 && rows[i].totals.user != "-"
              && rows[i].totals.bytesDown == BytesInWindow(es, rows[i].totals.user, end)
              && rows[i].totals.connections == ConnectionsInWindow(es, rows[i].totals.user, end)
    ensures forall i, j :: 0 <= i < j < |rows| ==>
              || rows[i].totals.bytesDown > rows[j].totals.bytesDown
              || (rows[i].totals.bytesDown == rows[j].totals.bytesDown
                  && NameBefore(rows[i].totals.user, rows[j].totals.user))
    ensures forall e :: e in es && e.ts <= end && e.user.Some? && e.user.value != "-" && e.bytesDown.Some? ==>
              exists i :: 0 <= i < |rows| && rows[i].totals.user == e.user.value
  {
    var bag := multiset(Counted(es, end));
    forall i | 0 <= i < |rows|
      ensures rows[i].totals.user != "-"
      ensures rows[i].totals.bytesDown == BytesInWindow(es, rows[i].totals.user, end)
      ensures rows[i].totals.connections == ConnectionsInWindow(es, rows[i].totals.user, end)
    {
      assert RowIsRight(rows[i].totals, bag);
      var e :| e in bag && e.user == Some(rows[i].totals.user);
      CountedMember(es, end, e);
      BagIsWindow(es, rows[i].totals.user, end);
    }
    forall e | e in es && e.ts <= end && e.user.Some? && e.user.value != "-" && e.bytesDown.Some?
      ensures exists i :: 0 <= i < |rows| && rows[i].totals.user == e.user.value
    {
      CountedMember(es, end, e);
      assert e in bag;
      assert Present(bag, e.user.value);
    }
  }
}
