/** `_read_http_headers` of auth_proxy.py: reads the head of an HTTP request from a stream
    that arrives in chunks, and hands back what was read beyond it.
 */
module HttpHead {
  import opened Options
  import opened Bytes

  const MAX_HEAD_BYTES: nat := 16 * 1024
  const READ_SIZE: nat := 4096

  const CRLF: bytes := [CR, LF]
  const TERMINATOR: bytes := [CR, LF, CR, LF]

  // ---------------------------------------------------------------- searching and splitting

  predicate OccursAt(s: bytes, pattern: bytes, i: nat) {
    i + |pattern| <= |s| && s[i..i + |pattern|] == pattern
  }

  /** The first occurrence at or after `i`. */
  function FindFrom(s: bytes, pattern: bytes, i: nat): (k: Option<nat>)
    ensures k.Some? ==> i <= k.value && OccursAt(s, pattern, k.value)
    ensures k.Some? ==> forall j: nat :: i <= j < k.value ==> !OccursAt(s, pattern, j)
    ensures k.None? ==> forall j: nat :: i <= j ==> !OccursAt(s, pattern, j)
    decreases if i <= |s| then |s| - i + 1 else 0
  {
    if i > |s| then None
    else if OccursAt(s, pattern, i) then Some(i)
    else FindFrom(s, pattern, i + 1)
  }

  function Find(s: bytes, pattern: bytes): (k: Option<nat>)
    ensures k.Some? ==> OccursAt(s, pattern, k.value)
    ensures k.Some? ==> forall j: nat :: j < k.value ==> !OccursAt(s, pattern, j)
    ensures k.None? ==> forall j: nat :: !OccursAt(s, pattern, j)
  {
    FindFrom(s, pattern, 0)
  }

  lemma FindIs(s: bytes, pattern: bytes, k: nat)
    requires OccursAt(s, pattern, k)
    requires forall j: nat :: j < k ==> !OccursAt(s, pattern, j)
    ensures Find(s, pattern) == Some(k)
  {
    assert Find(s, pattern).Some?;
  }

  /** `s.split(b"\r\n")` */
  function SplitCrLf(s: bytes): (pieces: seq<bytes>)
    ensures |pieces| >= 1
    decreases |s|
  {
    match Find(s, CRLF)
    case None => [s]
    case Some(k) => [s[..k]] + SplitCrLf(s[k + 2..])
  }

  function JoinCrLf(pieces: seq<bytes>): bytes
    requires |pieces| >= 1
  {
    if |pieces| == 1 then pieces[0] else pieces[0] + [13, 10] + JoinCrLf(pieces[1..])
  }

  lemma {:induction false} JoinUndoesCrLfSplit(s: bytes)
    ensures JoinCrLf(SplitCrLf(s)) == s
    decreases |s|
  {
    match Find(s, CRLF)
    case None =>
    case Some(k) =>
      JoinUndoesCrLfSplit(s[k + 2..]);
      assert SplitCrLf(s)[1..] == SplitCrLf(s[k + 2..]);
      assert s == s[..k] + s[k..k + 2] + s[k + 2..];
  }

  // ---------------------------------------------------------------- streams in chunks

  function Concat(chunks: seq<bytes>): bytes {
    if chunks == [] then [] else chunks[0] + Concat(chunks[1..])
  }

  lemma {:induction false} ConcatAppend(a: seq<bytes>, b: seq<bytes>)
    ensures Concat(a + b) == Concat(a) + Concat(b)
  {
    if a == [] {
      assert a + b == b;
    } else {
      ConcatAppend(a[1..], b);
      assert (a + b)[0] == a[0] && (a + b)[1..] == a[1..] + b;
      assert a[0] + (Concat(a[1..]) + Concat(b)) == (a[0] + Concat(a[1..])) + Concat(b);
    }
  }

  /** What `reader.read(4096)` can return before the stream ends. */
  ghost predicate IsChunked(chunks: seq<bytes>) {
    forall i :: 0 <= i < |chunks| ==> 1 <= |chunks[i]| <= READ_SIZE
  }

  datatype HeadResult =
    | Head(line: bytes, headers: seq<bytes>, tail: bytes)
    | TooLarge
    | Incomplete
    | Broken(how: Ending)

  /** The offset just past the first terminator of the stream. */
  function HeadEnd(stream: bytes): (e: Option<nat>)
    ensures e.Some? ==> 4 <= e.value <= |stream|
  {
    match Find(stream, TERMINATOR)
    case None => None
    case Some(k) => Some(k + 4)
  }

  /** How many bytes have been read when the chunks first reach `n` bytes. */
  function Reach(chunks: seq<bytes>, n: nat): nat {
    if n == 0 || chunks == [] then 0
    else |chunks[0]| + Reach(chunks[1..], if n > |chunks[0]| then n - |chunks[0]| else 0)
  }

  lemma {:induction false} ReachBounds(chunks: seq<bytes>, n: nat)
    requires IsChunked(chunks) && 0 < n <= |Concat(chunks)|
    ensures n <= Reach(chunks, n) <= n + 4095
  {
    if n > |chunks[0]| {
      ReachBounds(chunks[1..], n - |chunks[0]|);
    }
  }

  /** When the chunks before the last one fall short of `n`, the last one reaches it. */
  lemma {:induction false} ReachIs(chunks: seq<bytes>, n: nat, used: nat)
    requires 0 < used <= |chunks|
    requires |Concat(chunks[..used - 1])| < n <= |Concat(chunks[..used])|
    ensures Reach(chunks, n) == |Concat(chunks[..used])|
  {
    assert chunks[..used][1..] == chunks[1..][..used - 1];
    if used > 1 {
      assert chunks[..used - 1][1..] == chunks[1..][..used - 2];
      ReachIs(chunks[1..], n - |chunks[0]|, used - 1);
    } else {
      assert chunks[..used][1..] == [] && chunks[..0] == [];
    }
  }

  lemma PrefixConcat(chunks: seq<bytes>, used: nat)
    requires used <= |chunks|
    ensures Concat(chunks) == Concat(chunks[..used]) + Concat(chunks[used..])
  {
    ConcatAppend(chunks[..used], chunks[used..]);
    assert chunks == chunks[..used] + chunks[used..];
  }

  /** The terminator shows in a prefix of the stream exactly when its end has been read. */
  lemma SeenIff(stream: bytes, n: nat)
    requires n <= |stream|
    ensures Find(stream[..n], TERMINATOR) ==
            if HeadEnd(stream).Some? && HeadEnd(stream).value <= n
            then Some(HeadEnd(stream).value - 4) else None
  {
    var read := stream[..n];
    assert forall j: nat :: OccursAt(read, TERMINATOR, j) <==> j + 4 <= n && OccursAt(stream, TERMINATOR, j) by {
      forall j: nat
        ensures OccursAt(read, TERMINATOR, j) <==> j + 4 <= n && OccursAt(stream, TERMINATOR, j)
      {
        if j + 4 <= n {
          assert read[j..j + 4] == stream[j..j + 4];
        }
      }
    }
    if HeadEnd(stream).Some? && HeadEnd(stream).value <= n {
      FindIs(read, TERMINATOR, HeadEnd(stream).value - 4);
    }
  }

  /** The result is the head of the stream whatever the chunks are. */
  ghost predicate IsHeadOf(r: HeadResult, stream: bytes, read: nat)
    requires read <= |stream|
  {
    && r.Head?
    && HeadEnd(stream).Some?
    && var e := HeadEnd(stream).value;
       && e <= read
       && [r.line] + r.headers == SplitCrLf(stream[..e - 4])
       && r.tail == stream[e..read]
       && JoinCrLf([r.line] + r.headers) + TERMINATOR + r.tail == stream[..read]
  }

  /** Two readings of the same stream, cut differently, find the same request line and headers;
      what they read beyond the head differs only in how far they got. */
  lemma HeadIsChunkIndependent(stream: bytes, r: HeadResult, read: nat, other: HeadResult, otherRead: nat)
    requires read <= otherRead <= |stream|
    requires IsHeadOf(r, stream, read) && IsHeadOf(other, stream, otherRead)
    ensures r.line == other.line && r.headers == other.headers
    ensures r.tail <= other.tail
  {
  }

  /** What the read loop knows after `used` chunks. */
  ghost predicate Reading(chunks: seq<bytes>, used: nat, buf: bytes) {
    var stream := Concat(chunks);
    && used <= |chunks|
    && buf == Concat(chunks[..used])
    && |buf| <= |stream| && buf == stream[..|buf|]
    && match Find(buf, TERMINATOR)
       case None => HeadEnd(stream).None? || |buf| < HeadEnd(stream).value
       case Some(k) => HeadEnd(stream) == Some(k + 4) && Reach(chunks, k + 4) == |buf|
  }

  method ReadHttpHeaders(chunks: seq<bytes>, ending: Ending, maxBytes: nat) returns (r: HeadResult, used: nat)
    requires IsChunked(chunks)
    ensures used <= |chunks|
    ensures r.Head? <==> HeadEnd(Concat(chunks)).Some?
                         && Reach(chunks, HeadEnd(Concat(chunks)).value) <= maxBytes
    ensures r.Head? ==> |Concat(chunks[..used])| <= |Concat(chunks)|
                        && IsHeadOf(r, Concat(chunks), |Concat(chunks[..used])|)
                        && r.tail + Concat(chunks[used..]) == Concat(chunks)[HeadEnd(Concat(chunks)).value..]
    ensures r.TooLarge? ==> |Concat(chunks[..used])| > maxBytes
    ensures r.Incomplete? || r.Broken? ==>
              used == |chunks| && |Concat(chunks)| <= maxBytes && HeadEnd(Concat(chunks)).None?
    ensures r.Incomplete? ==> ending == Eof
    ensures r.Broken? ==> r.how == ending != Eof
  {
    var buf: bytes := [];
    used := 0;
    assert chunks[..0] == [] && Concat(chunks)[..0] == [];
    SeenIff(Concat(chunks), 0);
    while Find(buf, TERMINATOR).None?
      invariant Reading(chunks, used, buf) && |buf| <= maxBytes
      decreases |chunks| - used
    {
      if used == |chunks| {
        assert chunks[..used] == chunks;
        if ending == Eof {
          return Incomplete, used;
        }
        return Broken(ending), used;
      }
      ReadMore(chunks, used, buf);
      buf := buf + chunks[used];
      used := used + 1;
      if |buf| > maxBytes {
        TooLong(chunks, used, maxBytes);
        return TooLarge, used;
      }
    }
    var k := Find(buf, TERMINATOR).value;
    var lines := SplitCrLf(buf[..k]);
    r := Head(lines[0], lines[1..], buf[k + 4..]);
    HeadDone(chunks, used, buf);
  }

  lemma HeadDone(chunks: seq<bytes>, used: nat, buf: bytes)
    requires Reading(chunks, used, buf) && Find(buf, TERMINATOR).Some?
    ensures var k := Find(buf, TERMINATOR).value;
            var lines := SplitCrLf(buf[..k]);
            && IsHeadOf(Head(lines[0], lines[1..], buf[k + 4..]), Concat(chunks), |buf|)
            && buf[k + 4..] + Concat(chunks[used..]) == Concat(chunks)[k + 4..]
  {
    var k := Find(buf, TERMINATOR).value;
    var lines := SplitCrLf(buf[..k]);
    JoinUndoesCrLfSplit(buf[..k]);
    assert [lines[0]] + lines[1..] == lines;
    CutAt(buf, k, Concat(chunks[used..]));
    PrefixConcat(chunks, used);
  }

  lemma CutAt(buf: bytes, k: nat, rest: bytes)
    requires OccursAt(buf, TERMINATOR, k)
    ensures buf == buf[..k] + TERMINATOR + buf[k + 4..]
    ensures buf[..k] == (buf + rest)[..k] && buf == (buf + rest)[..|buf|]
    ensures buf[k + 4..] == (buf + rest)[k + 4..|buf|]
    ensures buf[k + 4..] + rest == (buf + rest)[k + 4..]
  {
  }

  lemma {:induction false} ReadMore(chunks: seq<bytes>, used: nat, buf: bytes)
    requires used < |chunks| && Reading(chunks, used, buf) && Find(buf, TERMINATOR).None?
    ensures Reading(chunks, used + 1, buf + chunks[used])
    ensures HeadEnd(Concat(chunks)).None? || |buf| < HeadEnd(Concat(chunks)).value
  {
    var stream := Concat(chunks);
    var buf' := buf + chunks[used];
    NextChunk(chunks, used);
    assert buf' == Concat(chunks[..used + 1]) == stream[..|buf'|];
    SeenIff(stream, |buf'|);
    var end := HeadEnd(stream);
    if end.Some? && end.value <= |buf'| {
      assert chunks[..used + 1 - 1] == chunks[..used];
      ReachIs(chunks, end.value, used + 1);
      assert Find(buf', TERMINATOR) == Some(end.value - 4) && Reach(chunks, end.value) == |buf'|;
    } else {
      assert Find(buf', TERMINATOR) == None;
    }
  }

  lemma NextChunk(chunks: seq<bytes>, used: nat)
    requires used < |chunks|
    ensures Concat(chunks[..used + 1]) == Concat(chunks[..used]) + chunks[used]
    ensures |Concat(chunks[..used + 1])| <= |Concat(chunks)|
    ensures Concat(chunks[..used + 1]) == Concat(chunks)[..|Concat(chunks[..used + 1])|]
  {
    ConcatAppend(chunks[..used], [chunks[used]]);
    assert chunks[..used + 1] == chunks[..used] + [chunks[used]];
    assert Concat([chunks[used]]) == chunks[used];
    PrefixConcat(chunks, used + 1);
  }

  /** Once the limit is passed, so is the point where the head could have ended in time. */
  lemma TooLong(chunks: seq<bytes>, used: nat, maxBytes: nat)
    requires 0 < used <= |chunks| && |Concat(chunks[..used])| > maxBytes
    requires HeadEnd(Concat(chunks)).Some? ==> |Concat(chunks[..used - 1])| < HeadEnd(Concat(chunks)).value
    ensures HeadEnd(Concat(chunks)).Some? ==> Reach(chunks, HeadEnd(Concat(chunks)).value) > maxBytes
  {
    if HeadEnd(Concat(chunks)).Some? {
      ReachPasses(chunks, HeadEnd(Concat(chunks)).value, used);
    }
  }

  lemma {:induction false} ReachPasses(chunks: seq<bytes>, n: nat, used: nat)
    requires 0 < used <= |chunks| && |Concat(chunks[..used - 1])| < n
    ensures Reach(chunks, n) >= |Concat(chunks[..used])|
  {
    assert chunks[..used][1..] == chunks[1..][..used - 1];
    if used > 1 {
      assert chunks[..used - 1][1..] == chunks[1..][..used - 2];
      ReachPasses(chunks[1..], n - |chunks[0]|, used - 1);
    } else {
      assert chunks[..used][1..] == [];
    }
  }

  /** Chunk-independent bounds: a head that ends 4095 bytes below the limit is always read,
      one that ends above the limit never. */
  lemma HeadBounds(chunks: seq<bytes>, maxBytes: nat)
    requires IsChunked(chunks) && HeadEnd(Concat(chunks)).Some?
    ensures var e := HeadEnd(Concat(chunks)).value;
            && (e + 4095 <= maxBytes ==> Reach(chunks, e) <= maxBytes)
            && (e > maxBytes ==> Reach(chunks, e) > maxBytes)
  {
    ReachBounds(chunks, HeadEnd(Concat(chunks)).value);
  }
}
