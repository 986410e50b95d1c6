/** The success cache of authd.py: (user, HMAC of the password) -> expiry time.

    The Python dict is modelled as a sequence of entries with distinct keys in insertion
    order, because the eviction rule (`min` over the items) breaks ties by that order.
    Monotonic-clock readings are parameters; a put reads the clock twice.
 */
module AuthCache {
  import opened Options

  const CACHE_TTL: real := 60.0
  const CACHE_MAX_ENTRIES: nat := 128

  /** HMAC-SHA-256 under the per-process key: a free constructor, hence injective. */
  datatype Fingerprint = Hmac(password: string)

  datatype Key = Key(user: string, fingerprint: Fingerprint)

  datatype Entry = Entry(key: Key, expiry: real)

  type Cache = seq<Entry>

  // ---------------------------------------------------------------- dict operations

  ghost predicate DistinctKeys(c: Cache) {
    forall i, j :: 0 <= i < j < |c| ==> c[i].key != c[j].key
  }

  predicate Has(c: Cache, k: Key) {
    exists i :: 0 <= i < |c| && c[i].key == k
  }

  ghost function Keys(c: Cache): set<Key> {
    set i | 0 <= i < |c| :: c[i].key
  }

  function IndexOf(c: Cache, k: Key): (i: nat)
    requires Has(c, k)
    ensures i < |c| && c[i].key == k
  {
    if c[0].key == k then 0 else
      assert Has(c[1..], k) by {
        var j :| 0 <= j < |c| && c[j].key == k;
        assert c[1..][j - 1].key == k;
      }
      1 + IndexOf(c[1..], k)
  }

  function RemoveAt(c: Cache, i: nat): Cache
    requires i < |c|
  {
    c[..i] + c[i + 1..]
  }

  /** `_cache[k] = expiry`: an existing key keeps its position. */
  function Store(c: Cache, k: Key, expiry: real): Cache {
    if Has(c, k) then c[IndexOf(c, k) := Entry(k, expiry)] else c + [Entry(k, expiry)]
  }

  // ---------------------------------------------------------------- specification

  predicate Hit(c: Cache, k: Key, now: real) {
    Has(c, k) && now <= c[IndexOf(c, k)].expiry
  }

  function AfterGet(c: Cache, k: Key, now: real): Cache {
    if Has(c, k) && c[IndexOf(c, k)].expiry < now then RemoveAt(c, IndexOf(c, k)) else c
  }

  function Purge(c: Cache, now: real): Cache {
    if c == [] then []
    else (if c[0].expiry < now then [] else [c[0]]) + Purge(c[1..], now)
  }

  /** The first position holding the smallest expiry, as Python's `min` returns it. */
  function Oldest(c: Cache): (i: nat)
    requires c != []
    ensures i < |c|
    ensures forall j :: 0 <= j < |c| ==> c[i].expiry <= c[j].expiry
    ensures forall j :: 0 <= j < i ==> c[i].expiry < c[j].expiry
  {
    if |c| == 1 then 0 else
      var r := Oldest(c[1..]);
      assert forall j :: 1 <= j < |c| ==> c[j] == c[1..][j - 1];
      if c[0].expiry <= c[1..][r].expiry then 0 else r + 1
  }

  function MakeRoom(c: Cache): Cache
    decreases |c|
  {
    if |c| < CACHE_MAX_ENTRIES then c else MakeRoom(RemoveAt(c, Oldest(c)))
  }

  /** What a put keeps before it stores its own entry. */
  function Room(c: Cache, purgeAt: real): Cache {
    if |c| >= CACHE_MAX_ENTRIES then MakeRoom(Purge(c, purgeAt)) else c
  }

  function AfterPut(c: Cache, k: Key, purgeAt: real, storeAt: real): Cache {
    Store(Room(c, purgeAt), k, storeAt + CACHE_TTL)
  }

  // ---------------------------------------------------------------- dict facts

  lemma IndexOfUnique(c: Cache, i: nat)
    requires DistinctKeys(c) && i < |c|
    ensures Has(c, c[i].key) && IndexOf(c, c[i].key) == i
  {
    var j := IndexOf(c, c[i].key);
  }

  lemma RemoveAtFacts(c: Cache, i: nat)
    requires DistinctKeys(c) && i < |c|
    ensures DistinctKeys(RemoveAt(c, i))
    ensures Keys(RemoveAt(c, i)) == Keys(c) - {c[i].key}
  {
    var r := RemoveAt(c, i);
    assert forall j :: 0 <= j < |r| ==> r[j] == if j < i then c[j] else c[j + 1];
    forall k | k in Keys(c) - {c[i].key}
      ensures k in Keys(r)
    {
      var j :| 0 <= j < |c| && c[j].key == k;
      assert r[if j < i then j else j - 1].key == k;
    }
  }

  lemma StoreFacts(c: Cache, k: Key, expiry: real)
    requires DistinctKeys(c)
    ensures DistinctKeys(Store(c, k, expiry))
    ensures |Store(c, k, expiry)| == if Has(c, k) then |c| else |c| + 1
    ensures forall e :: e in Store(c, k, expiry) <==> e == Entry(k, expiry) || (e in c && e.key != k)
  {
    var r := Store(c, k, expiry);
    if Has(c, k) {
      assert r[IndexOf(c, k)] == Entry(k, expiry);
      forall e | e in c && e.key != k
        ensures e in r
      {
        var j :| 0 <= j < |c| && c[j] == e;
        assert r[j] == e;
      }
      forall j | 0 <= j < |r| && j != IndexOf(c, k)
        ensures r[j] == c[j] && r[j].key != k
      {
        IndexOfUnique(c, j);
      }
    } else {
      assert r[|c|] == Entry(k, expiry);
    }
  }

  lemma {:induction false} PurgeMembers(c: Cache, now: real)
    ensures forall e :: e in Purge(c, now) <==> e in c && now <= e.expiry
    ensures DistinctKeys(c) ==> DistinctKeys(Purge(c, now))
    ensures |Purge(c, now)| <= |c|
  {
    if c != [] {
      PurgeMembers(c[1..], now);
      var r := Purge(c[1..], now);
      assert c == [c[0]] + c[1..];
      if DistinctKeys(c) {
        assert DistinctKeys(c[1..]);
        forall j | 0 <= j < |r|
          ensures r[j].key != c[0].key
        {
          assert r[j] in c[1..];
        }
      }
    }
  }

  lemma {:induction false} PurgeSnoc(c: Cache, e: Entry, now: real)
    ensures Purge(c + [e], now) == Purge(c, now) + (if e.expiry < now then [] else [e])
  {
    if c == [] {
      assert [e][1..] == [];
    } else {
      PurgeSnoc(c[1..], e, now);
      assert (c + [e])[1..] == c[1..] + [e];
    }
  }

  ghost predicate IsSound(c: Cache) {
    DistinctKeys(c) && |c| <= CACHE_MAX_ENTRIES
  }

  /** The dict after `done` rounds of the purge loop. */
  function Dropped(items: Cache, done: nat, now: real): Cache
    requires done <= |items|
  {
    Purge(items[..done], now) + items[done..]
  }

  /** `if e < now: _cache.pop(k, None)` */
  function DropOne(c: Cache, e: Entry, now: real): Cache {
    if e.expiry < now && Has(c, e.key) then RemoveAt(c, IndexOf(c, e.key)) else c
  }

  lemma DropEnds(items: Cache, now: real)
    ensures Dropped(items, 0, now) == items
    ensures Dropped(items, |items|, now) == Purge(items, now)
  {
    assert items[..|items|] == items;
  }

  /** One round of the purge loop: popping the expired key leaves the purged prefix. */
  lemma DropStep(items: Cache, done: nat, now: real)
    requires done < |items| && IsSound(items) && IsSound(Dropped(items, done, now))
    ensures var c := Dropped(items, done, now);
            var c' := Dropped(items, done + 1, now);
            && IsSound(c') && c' == DropOne(c, items[done], now)
  {
    var prefix := Purge(items[..done], now);
    var c := prefix + items[done..];
    var c' := Purge(items[..done + 1], now) + items[done + 1..];
    assert items[..done + 1] == items[..done] + [items[done]];
    PurgeSnoc(items[..done], items[done], now);
    assert c[|prefix|] == items[done];
    IndexOfUnique(c, |prefix|);
    RemoveAtFacts(c, |prefix|);
    var x, later := items[done], items[done + 1..];
    assert items[done..] == [x] + later;
    if x.expiry < now {
      assert prefix + [] == prefix;
      assert c[..|prefix|] == prefix && c[|prefix| + 1..] == later;
    } else {
      assert (prefix + [x]) + later == prefix + ([x] + later);
    }
  }

  /** The key is stored for 60 seconds, no other entry is changed, and none is lost while there
      were fewer than 128. */
  ghost predicate PutKeeps(before: Cache, k: Key, storeAt: real, after: Cache) {
    && (forall e :: e in after && e.key == k <==> e == Entry(k, storeAt + 60.0))
    && (forall e :: e in after && e.key != k ==> e in before)
    && (|before| < 128 ==> forall e :: e in before && e.key != k ==> e in after)
  }

  lemma PutFacts(c: Cache, k: Key, purgeAt: real, storeAt: real)
    requires DistinctKeys(c) && |c| <= CACHE_MAX_ENTRIES
    ensures PutKeeps(c, k, storeAt, AfterPut(c, k, purgeAt, storeAt))
  {
    RoomFacts(c, purgeAt);
    StoreFacts(Room(c, purgeAt), k, storeAt + CACHE_TTL);
  }

  /** The purge loop from its `done`-th round on. */
  function DropFrom(c: Cache, items: Cache, done: nat, now: real): Cache
    requires done <= |items|
    decreases |items| - done
  {
    if done == |items| then c else DropFrom(DropOne(c, items[done], now), items, done + 1, now)
  }

  lemma {:induction false} DropFromPurges(items: Cache, done: nat, now: real)
    requires done <= |items| && IsSound(items) && IsSound(Dropped(items, done, now))
    ensures DropFrom(Dropped(items, done, now), items, done, now) == Purge(items, now)
    decreases |items| - done
  {
    if done == |items| {
      DropEnds(items, now);
    } else {
      DropStep(items, done, now);
      DropFromPurges(items, done + 1, now);
    }
  }

  lemma PurgeLoopPurges(items: Cache, now: real)
    requires IsSound(items)
    ensures DropFrom(items, items, 0, now) == Purge(items, now)
  {
    DropEnds(items, now);
    DropFromPurges(items, 0, now);
  }

  lemma DropOneSound(c: Cache, e: Entry, now: real)
    requires IsSound(c)
    ensures IsSound(DropOne(c, e, now))
  {
    if e.expiry < now && Has(c, e.key) {
      RemoveAtFacts(c, IndexOf(c, e.key));
    }
  }

  lemma RemoveAtMembers(c: Cache, i: nat)
    requires DistinctKeys(c) && i < |c|
    ensures forall e :: e in RemoveAt(c, i) <==> e in c && e.key != c[i].key
  {
    var r := RemoveAt(c, i);
    assert forall j :: 0 <= j < |r| ==> r[j] == if j < i then c[j] else c[j + 1];
    forall e | e in c && e.key != c[i].key
      ensures e in r
    {
      var j :| 0 <= j < |c| && c[j] == e;
      assert r[if j < i then j else j - 1] == e;
    }
  }

  lemma OnlyOneEntry(c: Cache, k: Key, e: Entry)
    requires DistinctKeys(c) && e in c && e.key == k
    ensures Has(c, k) && c[IndexOf(c, k)] == e
  {
    var j :| 0 <= j < |c| && c[j] == e;
    IndexOfUnique(c, j);
  }

  /** What a get finds and what it removes, entry by entry. */
  lemma {:induction false} GetFacts(c: Cache, k: Key, now: real)
    requires DistinctKeys(c)
    ensures Hit(c, k, now) <==> exists e :: e in c && e.key == k && now <= e.expiry
    ensures forall e :: e in AfterGet(c, k, now) <==> e in c && !(e.key == k && e.expiry < now)
  {
    forall e | e in c && e.key == k
      ensures Has(c, k) && e == c[IndexOf(c, k)]
    {
      OnlyOneEntry(c, k, e);
    }
    if Has(c, k) {
      var found := c[IndexOf(c, k)];
      assert found in c && found.key == k;
      if found.expiry < now {
        RemoveAtMembers(c, IndexOf(c, k));
      }
    }
  }

  // ---------------------------------------------------------------- the module state

  class SuccessCache {
    var entries: Cache

    ghost predicate Valid()
      reads this
    {
      IsSound(entries)
    }

    constructor ()
      ensures Valid() && entries == []
    {
      entries := [];
    }

    method Get(user: string, password: string, now: real) returns (hit: bool)
      requires Valid()
      modifies this
      ensures Valid()
      ensures hit == Hit(old(entries), Key(user, Hmac(password)), now)
      ensures hit <==> exists e :: e in old(entries) && e.key == Key(user, Hmac(password)) && now <= e.expiry
      ensures forall e :: e in entries <==>
                e in old(entries) && !(e.key == Key(user, Hmac(password)) && e.expiry < now)
      ensures entries == AfterGet(old(entries), Key(user, Hmac(password)), now)
    {
      var key := Key(user, Hmac(password));
      GetFacts(entries, key, now);
      if !Has(entries, key) {
        return false;
      }
      var i := IndexOf(entries, key);
      if entries[i].expiry < now {
        RemoveAtFacts(entries, i);
        entries := RemoveAt(entries, i);
        return false;
      }
      return true;
    }

    method Put(user: string, password: string, purgeAt: real, storeAt: real)
      requires Valid()
      modifies this
      ensures Valid()
      ensures entries == AfterPut(old(entries), Key(user, Hmac(password)), purgeAt, storeAt)
      ensures PutKeeps(old(entries), Key(user, Hmac(password)), storeAt, entries)
    {
      ghost var before := entries;
      if |entries| >= CACHE_MAX_ENTRIES {
        DropExpired(purgeAt);
        ghost var purged := entries;
        while |entries| >= CACHE_MAX_ENTRIES
          invariant Valid()
          invariant MakeRoom(entries) == MakeRoom(purged)
          decreases |entries|
        {
          RemoveAtFacts(entries, Oldest(entries));
          entries := RemoveAt(entries, Oldest(entries));
        }
      }
      var key := Key(user, Hmac(password));
      StoreFacts(entries, key, storeAt + CACHE_TTL);
      entries := Store(entries, key, storeAt + CACHE_TTL);
      PutFacts(before, key, purgeAt, storeAt);
    }

    method DropIfExpired(e: Entry, now: real)
      modifies this
      ensures entries == DropOne(old(entries), e, now)
    {
      if e.expiry < now && Has(entries, e.key) {
        entries := RemoveAt(entries, IndexOf(entries, e.key));
      }
    }

    /** The purge loop of a put: it walks a snapshot of the items and pops by key. */
    method DropExpired(now: real)
      requires Valid()
      modifies this
      ensures Valid()
      ensures entries == Purge(old(entries), now)
    {
      var items := entries;
      var done := 0;
      while done < |items|
        invariant 0 <= done <= |items|
        invariant DropFrom(entries, items, done, now) == DropFrom(items, items, 0, now)
        invariant IsSound(entries)
      {
        DropOneSound(entries, items[done], now);
        DropIfExpired(items[done], now);
        done := done + 1;
      }
      PurgeLoopPurges(items, now);
    }

    method Clear()
      modifies this
      ensures Valid() && entries == []
    {
      entries := [];
    }
  }

  // ---------------------------------------------------------------- runs

  /** What reaches the cache: each event carries its own clock readings. */
  datatype Event =
    | Put(key: Key, purgeAt: real, storeAt: real)
    | Get(key: Key, at: real)
    | Clear

  function Step(c: Cache, e: Event): Cache {
    match e
    case Put(k, purgeAt, storeAt) => AfterPut(c, k, purgeAt, storeAt)
    case Get(k, at) => AfterGet(c, k, at)
    case Clear => []
  }

  function Run(h: seq<Event>): Cache {
    if h == [] then [] else Step(Run(h[..|h| - 1]), h[|h| - 1])
  }

  /** The latest clock reading of a run. */
  function Now(h: seq<Event>): real {
    if h == [] then 0.0 else
      match h[|h| - 1]
      case Put(_, _, storeAt) => storeAt
      case Get(_, at) => at
      case Clear => Now(h[..|h| - 1])
  }

  /** The monotonic clock never goes back. */
  ghost predicate WellTimed(h: seq<Event>) {
    h == [] ||
    var before := h[..|h| - 1];
    WellTimed(before) &&
    match h[|h| - 1]
    case Put(_, purgeAt, storeAt) => Now(before) <= purgeAt <= storeAt
    case Get(_, at) => Now(before) <= at
    case Clear => true
  }

  /** When the key was last put, if it was put since the last clear. */
  function LastPut(h: seq<Event>, k: Key): Option<real> {
    if h == [] then None else
      match h[|h| - 1]
      case Put(key, _, storeAt) => if key == k then Some(storeAt) else LastPut(h[..|h| - 1], k)
      case Get(_, _) => LastPut(h[..|h| - 1], k)
      case Clear => None
  }

  lemma {:induction false} LastPutIsPast(h: seq<Event>, k: Key)
    requires WellTimed(h) && LastPut(h, k).Some?
    ensures LastPut(h, k).value <= Now(h)
  {
    var before := h[..|h| - 1];
    match h[|h| - 1]
    case Put(key, _, _) => if key != k { LastPutIsPast(before, k); }
    case Get(_, _) => LastPutIsPast(before, k);
    case Clear =>
  }

  /** Enough other keys were put at or after time `since` to fill the cache without `k`. */
  ghost predicate Crowded(h: seq<Event>, k: Key, since: real) {
    exists others: set<Key> :: CrowdedBy(h, k, since, others)
  }

  ghost predicate CrowdedBy(h: seq<Event>, k: Key, since: real, others: set<Key>) {
    && k !in others
    && |others| >= CACHE_MAX_ENTRIES - 1
    && forall o :: o in others ==> LastPut(h, o).Some? && since <= LastPut(h, o).value
  }

  /** The content of the cache is exactly what the history of puts calls for. */
  ghost predicate Agrees(h: seq<Event>, c: Cache) {
    && DistinctKeys(c)
    && |c| <= CACHE_MAX_ENTRIES
    && (forall e :: e in c ==> LastPut(h, e.key) == Some(e.expiry - CACHE_TTL))
    && (forall k :: LastPut(h, k).Some? && !Has(c, k) ==> Excused(h, k))
  }

  ghost predicate Excused(h: seq<Event>, k: Key) {
    LastPut(h, k).Some? ==>
      var p := LastPut(h, k).value;
      p + CACHE_TTL < Now(h) || Crowded(h, k, p)
  }

  lemma HasMember(c: Cache, k: Key)
    ensures Has(c, k) <==> exists e :: e in c && e.key == k
  {
    if e :| e in c && e.key == k {
      var i :| 0 <= i < |c| && c[i] == e;
      assert c[i].key == k;
    }
  }

  lemma {:induction false} KeysCount(c: Cache)
    requires DistinctKeys(c)
    ensures |Keys(c)| == |c|
  {
    if c != [] {
      var init := c[..|c| - 1];
      KeysCount(init);
      assert c == init + [c[|c| - 1]];
      assert Keys(c) == Keys(init) + {c[|c| - 1].key};
    }
  }

  /** A later put can only make a key more crowded, unless it is a put of that key. */
  lemma CrowdedStays(h: seq<Event>, e: Event, k: Key, since: real)
    requires WellTimed(h + [e]) && !e.Clear? && since <= Now(h)
    requires Crowded(h, k, since)
    ensures Crowded(h + [e], k, since)
  {
    var others :| CrowdedBy(h, k, since, others);
    assert (h + [e])[..|h|] == h;
    assert CrowdedBy(h + [e], k, since, others);
  }

  lemma ExcuseStays(h: seq<Event>, e: Event, k: Key)
    requires WellTimed(h + [e]) && !e.Clear? && !(e.Put? && e.key == k)
    requires LastPut(h, k).Some? && Excused(h, k)
    ensures LastPut(h + [e], k) == LastPut(h, k) && Excused(h + [e], k)
  {
    assert (h + [e])[..|h|] == h;
    LastPutIsPast(h, k);
    if Crowded(h, k, LastPut(h, k).value) {
      CrowdedStays(h, e, k, LastPut(h, k).value);
    }
  }

  /** What eviction removes had the smallest expiry while the cache was full. */
  lemma {:induction false} MakeRoomFacts(c: Cache)
    requires DistinctKeys(c)
    ensures DistinctKeys(MakeRoom(c)) && |MakeRoom(c)| < CACHE_MAX_ENTRIES
    ensures forall e :: e in MakeRoom(c) ==> e in c
    ensures forall e :: e in c && e !in MakeRoom(c) ==> Outlived(c, e)
    decreases |c|
  {
    if |c| >= CACHE_MAX_ENTRIES {
      var i := Oldest(c);
      var r := RemoveAt(c, i);
      RemoveAtFacts(c, i);
      MakeRoomFacts(r);
      forall e | e in c && e !in MakeRoom(c)
        ensures Outlived(c, e)
      {
        if e in r {
          OutlivedInMore(c, r, e);
        } else {
          assert e == c[i];
          OldestIsOutlived(c);
        }
      }
    }
  }

  lemma OutlivedInMore(c: Cache, r: Cache, e: Entry)
    requires Outlived(r, e) && forall x :: x in r ==> x in c
    ensures Outlived(c, e)
  {
    var others :| OutlivedBy(r, e, others);
    assert OutlivedBy(c, e, others);
  }

  lemma OldestIsOutlived(c: Cache)
    requires DistinctKeys(c) && |c| >= CACHE_MAX_ENTRIES
    ensures Outlived(c, c[Oldest(c)])
  {
    var e := c[Oldest(c)];
    var others := Keys(c) - {e.key};
    KeysCount(c);
    assert e.key in Keys(c);
    forall o | o in others
      ensures exists x :: x in c && x.key == o && e.expiry <= x.expiry
    {
      var j :| 0 <= j < |c| && c[j].key == o;
      assert c[j] in c;
    }
    assert OutlivedBy(c, e, others);
  }

  ghost predicate Outlived(c: Cache, e: Entry) {
    exists others: set<Key> :: OutlivedBy(c, e, others)
  }

  ghost predicate OutlivedBy(c: Cache, e: Entry, others: set<Key>) {
    && e.key !in others
    && |others| >= CACHE_MAX_ENTRIES - 1
    && forall o :: o in others ==> exists x :: x in c && x.key == o && e.expiry <= x.expiry
  }

  lemma RoomFacts(c: Cache, purgeAt: real)
    requires DistinctKeys(c) && |c| <= CACHE_MAX_ENTRIES
    ensures DistinctKeys(Room(c, purgeAt)) && |Room(c, purgeAt)| < CACHE_MAX_ENTRIES
    ensures forall e :: e in Room(c, purgeAt) ==> e in c
    ensures forall e :: e in c && e !in Room(c, purgeAt) ==> e.expiry < purgeAt || Outlived(c, e)
  {
    var purged := Purge(c, purgeAt);
    PurgeMembers(c, purgeAt);
    MakeRoomFacts(purged);
    if |c| >= CACHE_MAX_ENTRIES {
      forall e | e in purged && e !in MakeRoom(purged)
        ensures Outlived(c, e)
      {
        var others :| OutlivedBy(purged, e, others);
        assert OutlivedBy(c, e, others);
      }
    }
  }

  /** A key evicted by a put is crowded out in the history that ends with that put. */
  lemma OutlivedIsCrowded(h: seq<Event>, c: Cache, e: Event, x: Entry)
    requires e.Put? && WellTimed(h + [e]) && Agrees(h, c)
    requires x in c && x.key != e.key && Outlived(c, x)
    ensures Crowded(h + [e], x.key, x.expiry - CACHE_TTL)
  {
    assert (h + [e])[..|h|] == h;
    LastPutIsPast(h, x.key);
    var others :| OutlivedBy(c, x, others);
    assert CrowdedBy(h + [e], x.key, x.expiry - CACHE_TTL, others);
  }

  lemma KeptEntryIsLastPut(h: seq<Event>, c: Cache, e: Event, x: Entry)
    requires e.Put? && Agrees(h, c)
    requires x == Entry(e.key, e.storeAt + CACHE_TTL) || (x in c && x.key != e.key)
    ensures LastPut(h + [e], x.key) == Some(x.expiry - CACHE_TTL)
  {
    assert (h + [e])[..|h|] == h;
  }

  lemma PutKeepsEntries(h: seq<Event>, c: Cache, e: Event)
    requires e.Put? && WellTimed(h + [e]) && Agrees(h, c)
    ensures var c' := Step(c, e);
            && DistinctKeys(c') && |c'| <= CACHE_MAX_ENTRIES
            && forall x :: x in c' ==> LastPut(h + [e], x.key) == Some(x.expiry - CACHE_TTL)
  {
    var c' := Step(c, e);
    StoredAfterPut(c, e);
    forall x | x in c'
      ensures LastPut(h + [e], x.key) == Some(x.expiry - CACHE_TTL)
    {
      KeptEntryIsLastPut(h, c, e, x);
    }
  }

  /** A put keeps only old entries of other keys, besides its own. */
  lemma StoredAfterPut(c: Cache, e: Event)
    requires e.Put? && DistinctKeys(c) && |c| <= CACHE_MAX_ENTRIES
    ensures DistinctKeys(Step(c, e)) && |Step(c, e)| <= CACHE_MAX_ENTRIES
    ensures forall x :: x in Step(c, e) ==> x == Entry(e.key, e.storeAt + CACHE_TTL) || (x in c && x.key != e.key)
  {
    RoomFacts(c, e.purgeAt);
    StoreFacts(Room(c, e.purgeAt), e.key, e.storeAt + CACHE_TTL);
  }

  lemma PutExcusesEvicted(h: seq<Event>, c: Cache, e: Event, x: Entry)
    requires e.Put? && WellTimed(h + [e]) && Agrees(h, c)
    requires x in c && x !in Room(c, e.purgeAt) && x.key != e.key
    ensures Excused(h + [e], x.key)
  {
    assert (h + [e])[..|h|] == h;
    RoomFacts(c, e.purgeAt);
    if x.expiry >= e.purgeAt {
      OutlivedIsCrowded(h, c, e, x);
    }
  }

  /** A key that is missing after a put was missing before or has just been dropped. */
  lemma MissingAfterPut(c: Cache, e: Event, k: Key)
    requires e.Put? && DistinctKeys(c) && |c| <= CACHE_MAX_ENTRIES && !Has(Step(c, e), k)
    ensures k != e.key
    ensures Has(c, k) ==> c[IndexOf(c, k)] !in Room(c, e.purgeAt)
  {
    RoomFacts(c, e.purgeAt);
    StoreFacts(Room(c, e.purgeAt), e.key, e.storeAt + CACHE_TTL);
    HasMember(Step(c, e), k);
    assert Entry(e.key, e.storeAt + CACHE_TTL) in Step(c, e);
  }

  lemma PutExcusesMisses(h: seq<Event>, c: Cache, e: Event, k: Key)
    requires e.Put? && WellTimed(h + [e]) && Agrees(h, c)
    requires LastPut(h + [e], k).Some? && !Has(Step(c, e), k)
    ensures Excused(h + [e], k)
  {
    MissingAfterPut(c, e, k);
    if Has(c, k) {
      PutExcusesEvicted(h, c, e, c[IndexOf(c, k)]);
    } else {
      assert (h + [e])[..|h|] == h;
      ExcuseStays(h, e, k);
    }
  }

  lemma PutKeepsAgreement(h: seq<Event>, c: Cache, e: Event)
    requires e.Put? && WellTimed(h + [e]) && Agrees(h, c)
    ensures Agrees(h + [e], Step(c, e))
  {
    PutKeepsEntries(h, c, e);
    forall k | LastPut(h + [e], k).Some? && !Has(Step(c, e), k)
      ensures Excused(h + [e], k)
    {
      PutExcusesMisses(h, c, e, k);
    }
  }

  lemma GetKeepsAgreement(h: seq<Event>, e: Event)
    requires e.Get? && WellTimed(h + [e]) && Agrees(h, Run(h))
    ensures Agrees(h + [e], Step(Run(h), e))
  {
    var h' := h + [e];
    assert h'[..|h|] == h;
    var c := Run(h);
    var c' := Step(c, e);
    var stale := Has(c, e.key) && c[IndexOf(c, e.key)].expiry < e.at;
    if stale {
      RemoveAtFacts(c, IndexOf(c, e.key));
    }
    forall k | LastPut(h', k).Some? && !Has(c', k)
      ensures Excused(h', k)
    {
      if Has(c, k) {
        assert k in Keys(c) && k !in Keys(c');
      } else {
        ExcuseStays(h, e, k);
      }
    }
  }

  lemma {:induction false} RunAgrees(h: seq<Event>)
    requires WellTimed(h)
    ensures Agrees(h, Run(h))
  {
    if h != [] {
      var before, e := h[..|h| - 1], h[|h| - 1];
      assert h == before + [e];
      RunAgrees(before);
      match e
      case Put(_, _, _) => PutKeepsAgreement(before, Run(before), e);
      case Get(_, _) => GetKeepsAgreement(before, e);
      case Clear =>
    }
  }

  /** A hit means: this credential was stored at most CACHE_TTL ago and after the last clear. */
  lemma HitIsRecent(h: seq<Event>, k: Key, now: real)
    requires WellTimed(h) && Now(h) <= now
    requires Hit(Run(h), k, now)
    ensures LastPut(h, k).Some? && LastPut(h, k).value <= now <= LastPut(h, k).value + 60.0
  {
    RunAgrees(h);
    assert Run(h)[IndexOf(Run(h), k)] in Run(h);
    LastPutIsPast(h, k);
  }

  /** Up to eviction the cache is complete: a credential that was stored and is not yet
      expired misses only when enough other keys were stored at or after its own time. */
  lemma MissIsExplained(h: seq<Event>, k: Key, now: real)
    requires WellTimed(h) && Now(h) <= now
    requires !Hit(Run(h), k, now)
    ensures LastPut(h, k).None? || LastPut(h, k).value + 60.0 < now
            || Crowded(h, k, LastPut(h, k).value)
  {
    RunAgrees(h);
    if Has(Run(h), k) {
      assert Run(h)[IndexOf(Run(h), k)] in Run(h);
    }
  }

  /** The cache never holds more than CACHE_MAX_ENTRIES entries, nor a key twice. */
  lemma SizeIsBounded(h: seq<Event>)
    requires WellTimed(h)
    ensures |Run(h)| <= 128 && |Keys(Run(h))| == |Run(h)|
  {
    RunAgrees(h);
    KeysCount(Run(h));
  }
}
