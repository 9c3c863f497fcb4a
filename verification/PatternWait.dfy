/** Literal matching over a byte stream and the bounded lookback window that does it chunk by chunk (daemon/src/pattern.rs). */
module PatternWait {
  import opened Basics

  type Bytes = seq<Byte>

  // ---- Literal matching ----

  predicate OccursAt(lit: Bytes, hay: Bytes, i: nat) {
    i + |lit| <= |hay| && hay[i..i + |lit|] == lit
  }

  ghost predicate Occurs(lits: seq<Bytes>, hay: Bytes) {
    exists k, i :: 0 <= k < |lits| && 0 <= i && OccursAt(lits[k], hay, i)
  }

  /** A match in window coordinates. */
  datatype Hit = Hit(index: nat, start: nat, end: nat)

  /** The first pattern in request order, from `k` on, that occurs at position `i`. */
  function FirstAt(lits: seq<Bytes>, hay: Bytes, i: nat, k: nat): (r: Option<nat>)
    requires k <= |lits|
    ensures r.Some? ==> k <= r.value < |lits| && OccursAt(lits[r.value], hay, i)
    decreases |lits| - k
  {
    if k == |lits| then None
    else if OccursAt(lits[k], hay, i) then Some(k)
    else FirstAt(lits, hay, i, k + 1)
  }

  function EarliestFrom(lits: seq<Bytes>, hay: Bytes, i: nat): (r: Option<Hit>)
    requires i <= |hay| + 1
    ensures r.Some? ==>
      var Hit(k, p, q) := r.value;
      i <= p && k < |lits| && OccursAt(lits[k], hay, p) && q == p + |lits[k]|
    decreases |hay| + 1 - i
  {
    if i == |hay| + 1 then None
    else
      match FirstAt(lits, hay, i, 0)
      case Some(k) => Some(Hit(k, i, i + |lits[k]|))
      case None => EarliestFrom(lits, hay, i + 1)
  }

  /** Leftmost match; ties go to the pattern named first in the request. */
  function Earliest(lits: seq<Bytes>, hay: Bytes): (r: Option<Hit>)
    ensures r.Some? ==>
      var Hit(k, p, q) := r.value;
      k < |lits| && OccursAt(lits[k], hay, p) && q == p + |lits[k]|
  {
    EarliestFrom(lits, hay, 0)
  }

  ghost predicate NoneBefore(lits: seq<Bytes>, hay: Bytes, from: nat, to: nat) {
    forall k, j :: 0 <= k < |lits| && from <= j < to ==> !OccursAt(lits[k], hay, j)
  }

  /** No literal ahead of number `k` in the request occurs at `i`. */
  ghost predicate NoneSooner(lits: seq<Bytes>, hay: Bytes, i: nat, k: nat)
    requires k <= |lits|
  {
    forall j :: 0 <= j < k ==> !OccursAt(lits[j], hay, i)
  }

  lemma {:induction false} FirstAtIsFirst(lits: seq<Bytes>, hay: Bytes, i: nat, k: nat)
    requires k <= |lits|
    ensures FirstAt(lits, hay, i, k).None? ==> forall j :: k <= j < |lits| ==> !OccursAt(lits[j], hay, i)
    ensures FirstAt(lits, hay, i, k).Some? ==>
      forall j :: k <= j < FirstAt(lits, hay, i, k).value ==> !OccursAt(lits[j], hay, i)
    decreases |lits| - k
  {
    if k < |lits| && !OccursAt(lits[k], hay, i) {
      FirstAtIsFirst(lits, hay, i, k + 1);
    }
  }

  /** No answer means no occurrence; an answer is leftmost, and first in request order at its position. */
  lemma {:induction false} EarliestFromIsLeftmost(lits: seq<Bytes>, hay: Bytes, i: nat)
    requires i <= |hay| + 1
    ensures EarliestFrom(lits, hay, i).None? ==> NoneBefore(lits, hay, i, |hay| + 1)
    ensures EarliestFrom(lits, hay, i).Some? ==>
      var hit := EarliestFrom(lits, hay, i).value;
      NoneBefore(lits, hay, i, hit.start) && NoneSooner(lits, hay, hit.start, hit.index)
    decreases |hay| + 1 - i
  {
    if i <= |hay| {
      FirstAtIsFirst(lits, hay, i, 0);
      EarliestFromIsLeftmost(lits, hay, i + 1);
    }
  }

  /** An answer exactly when a literal occurs: the leftmost, and among equal starts the first in the request. */
  lemma EarliestIsLeftmost(lits: seq<Bytes>, hay: Bytes)
    ensures Earliest(lits, hay).None? <==> !Occurs(lits, hay)
    ensures Earliest(lits, hay).Some? ==>
      var hit := Earliest(lits, hay).value;
      NoneBefore(lits, hay, 0, hit.start) && NoneSooner(lits, hay, hit.start, hit.index)
  {
    EarliestFromIsLeftmost(lits, hay, 0);
  }

  /** The smallest window that can hold every literal, and never less than one byte. */
  function MinLookback(lits: seq<Bytes>): (r: nat)
    ensures r >= 1
    ensures forall k :: 0 <= k < |lits| ==> |lits[k]| <= r
    ensures r == 1 || exists k :: 0 <= k < |lits| && |lits[k]| == r
  {
    if lits == [] then 1
    else
      var rest := MinLookback(lits[1..]);
      assert forall k :: 1 <= k < |lits| ==> lits[1..][k - 1] == lits[k];
      if |lits[0]| > rest then |lits[0]| else rest
  }

  // ---- The window ----

  /** Patterns in request order; the bounds are machine words. */
  datatype Matcher = Matcher(names: seq<string>, lits: seq<Bytes>, lookback: U64, context: U64)

  /** A compiled request: named non-empty literals and a lookback no smaller than they need. */
  predicate Valid(m: Matcher) {
    && |m.names| == |m.lits|
    && (forall k :: 0 <= k < |m.lits| ==> |m.lits[k]| > 0)
    && MinLookback(m.lits) <= m.lookback
  }

  datatype Window = Window(buf: Bytes, base: U64, scanned: U64, gaps: U64, gapBytes: U64)

  datatype PatternMatch = PatternMatch(
    pattern: string, offset: U64, endOffset: U64, context: Bytes, contextOffset: U64)

  /** What the hub hands the window: a replay-ring snapshot, or a live chunk and the loss before it. */
  datatype Event =
    | Seed(ring: Bytes, base: U64, excludedGap: U64)
    | Feed(chunk: Bytes, gapBefore: U64)

  function NewWindow(base: U64): Window {
    Window([], base, 0, 0, 0)
  }

  function CountGap(w: Window, gap: U64): Window {
    if gap > 0 then w.(gaps := Wrap64(w.gaps + 1), gapBytes := Saturate64(w.gapBytes + gap)) else w
  }

  /** The window once the bytes of an event have landed in it; a gap empties it first. */
  function Ingest(w: Window, e: Event): Window {
    match e
    case Seed(ring, base, gap) =>
      CountGap(w, gap).(base := base, buf := ring, scanned := Wrap64(w.scanned + |ring|))
    case Feed(chunk, gap) =>
      var w' := CountGap(w, gap);
      var w'' := if gap > 0 then w'.(base := Wrap64(w.base + |w.buf|), buf := []) else w';
      w''.(buf := w''.buf + chunk, scanned := Wrap64(w.scanned + |chunk|))
  }

  lemma FeedFieldByField(w: Window, chunk: Bytes, gap: U64)
    ensures Ingest(w, Feed(chunk, gap)) ==
            if gap > 0
            then Window([] + chunk, Wrap64(w.base + |w.buf|), Wrap64(w.scanned + |chunk|), Wrap64(w.gaps + 1), Saturate64(w.gapBytes + gap))
            else Window(w.buf + chunk, w.base, Wrap64(w.scanned + |chunk|), w.gaps, w.gapBytes)
  {
  }

  lemma SeedFieldByField(w: Window, ring: Bytes, base: U64, gap: U64)
    ensures Ingest(w, Seed(ring, base, gap)) ==
            if gap > 0
            then Window(ring, base, Wrap64(w.scanned + |ring|), Wrap64(w.gaps + 1), Saturate64(w.gapBytes + gap))
            else Window(ring, base, Wrap64(w.scanned + |ring|), w.gaps, w.gapBytes)
  {
  }

  function Trim(w: Window, lookback: nat): Window {
    if |w.buf| > lookback then
      var drop := |w.buf| - lookback;
      w.(buf := w.buf[drop..], base := Wrap64(w.base + drop))
    else w
  }

  /** A hit in the window, in stream coordinates and with the bytes around it. */
  function Lift(m: Matcher, w: Window, hit: Hit): PatternMatch
    requires hit.index < |m.names| && hit.start <= hit.end <= |w.buf|
  {
    var half := m.context / 2;
    var from := ContextStart(m, hit);
    var ctx := w.buf[from..Min(hit.end + half, |w.buf|)];
    PatternMatch(m.names[hit.index], Wrap64(w.base + hit.start), Wrap64(w.base + hit.end),
                 ctx[..Min(|ctx|, m.context)], Wrap64(w.base + from))
  }

  function ContextStart(m: Matcher, hit: Hit): (from: nat)
    ensures from <= hit.start
  {
    var half := m.context / 2;
    if hit.start >= half then hit.start - half else 0
  }

  /** Scan the whole window for the leftmost hit. */
  function Scan(m: Matcher, w: Window): Option<PatternMatch>
    requires |m.names| == |m.lits|
  {
    match Earliest(m.lits, w.buf)
    case None => None
    case Some(hit) => Some(Lift(m, w, hit))
  }

  /** The window kept for the next event: trimmed, unless this event produced a match. */
  function Next(m: Matcher, w: Window, e: Event): Window
    requires |m.names| == |m.lits|
  {
    var w' := Ingest(w, e);
    if Scan(m, w').None? then Trim(w', m.lookback) else w'
  }

  // ---- The observed stream ----

  /** A gap-free stretch of the stream and the stream offset of its first byte. */
  datatype Segment = Segment(start: U64, bytes: Bytes)

  /** The stream as it was observed: complete gap-free segments, and the one still growing. */
  datatype History = History(closed: seq<Segment>, segment: Bytes, start: U64) {
    function Close(): seq<Segment> {
      closed + [Segment(start, segment)]
    }
  }

  function Observe(h: History, e: Event): History {
    match e
    case Seed(ring, base, _) => History(h.Close(), ring, base)
    case Feed(chunk, gap) =>
      if gap > 0 then History(h.Close(), chunk, Wrap64(h.start + |h.segment|))
      else h.(segment := h.segment + chunk)
  }

  function ObserveAll(h: History, es: seq<Event>): History
    decreases es
  {
    if es == [] then h else ObserveAll(Observe(h, es[0]), es[1..])
  }

  /** No literal occurs inside any gap-free segment seen so far. */
  ghost predicate Clean(lits: seq<Bytes>, h: History) {
    !Occurs(lits, h.segment) && forall s :: s in h.closed ==> !Occurs(lits, s.bytes)
  }

  /** The window is the last `lookback` bytes of the current segment, and nothing has matched yet. */
  ghost predicate Sync(m: Matcher, w: Window, h: History) {
    && |w.buf| == Min(m.lookback, |h.segment|)
    && w.buf == h.segment[|h.segment| - |w.buf|..]
    && w.base == Wrap64(h.start + |h.segment| - |w.buf|)
    && Clean(m.lits, h)
  }

  /** Literal `k` at `at` is the leftmost occurrence, the first in the request among equal starts. */
  ghost predicate First(lits: seq<Bytes>, hay: Bytes, k: nat, at: nat) {
    k < |lits| && OccursAt(lits[k], hay, at) && NoneBefore(lits, hay, 0, at) && NoneSooner(lits, hay, at, k)
  }

  /** The report names the pattern and the stream offsets of bytes `from` to `to` of a segment. */
  predicate Places(p: PatternMatch, pattern: string, start: U64, from: nat, to: nat) {
    p.pattern == pattern && p.offset == Wrap64(start + from) && p.endOffset == Wrap64(start + to)
  }

  /**
   * The report's context is the bytes from `lead` before the match to half the budget behind it, as far as the
   * segment goes, cut to the budget; and it says where it starts.
   */
  ghost predicate QuotesFrom(p: PatternMatch, limit: nat, segment: Bytes, start: U64, at: nat, end: nat, lead: nat) {
    && lead <= at <= end <= |segment|
    && |p.context| == Min(limit, lead + (end - at) + Min(limit / 2, |segment| - end))
    && OccursAt(p.context, segment, at - lead) && p.contextOffset == Wrap64(start + (at - lead))
  }

  /** The context reaches back by at most half the budget. */
  ghost predicate Quotes(p: PatternMatch, limit: nat, segment: Bytes, start: U64, at: nat, end: nat) {
    exists lead :: 0 <= lead <= limit / 2 && QuotesFrom(p, limit, segment, start, at, end, lead)
  }

  /** A match report describes the leftmost occurrence in the current segment, the first in the request among equals. */
  ghost predicate Describes(m: Matcher, p: PatternMatch, h: History, k: nat, at: nat)
    requires |m.names| == |m.lits|
  {
    && First(m.lits, h.segment, k, at)
    && Places(p, m.names[k], h.start, at, at + |m.lits[k]|)
    && Quotes(p, m.context, h.segment, h.start, at, at + |m.lits[k]|)
  }

  // ---- One event ----

  lemma OccursAtShift(lit: Bytes, pre: Bytes, hay: Bytes, i: nat)
    ensures OccursAt(lit, pre + hay, |pre| + i) <==> OccursAt(lit, hay, i)
  {
    if i + |lit| <= |hay| {
      assert (pre + hay)[|pre| + i..|pre| + i + |lit|] == hay[i..i + |lit|];
    }
  }

  lemma OccursAtPrefix(lit: Bytes, hay: Bytes, more: Bytes, i: nat)
    requires i + |lit| <= |hay|
    ensures OccursAt(lit, hay + more, i) <==> OccursAt(lit, hay, i)
  {
    assert (hay + more)[i..i + |lit|] == hay[i..i + |lit|];
  }

  /** The part of the segment ahead of the window is dispensable: no occurrence in the grown segment starts there. */
  lemma NothingStartsAhead(m: Matcher, ahead: Bytes, buf: Bytes, chunk: Bytes, k: nat, i: nat)
    requires Valid(m) && !Occurs(m.lits, ahead + buf)
    requires |buf| == Min(m.lookback, |ahead + buf|)
    requires k < |m.lits| && i < |ahead|
    ensures !OccursAt(m.lits[k], ahead + (buf + chunk), i)
  {
    OccursAtPrefix(m.lits[k], ahead + buf, chunk, i);
    assert ahead + buf + chunk == ahead + (buf + chunk);
  }

  /** Scanning `hay` answers for the whole of `ahead + hay`. */
  ghost predicate ScanAnswers(lits: seq<Bytes>, ahead: Bytes, hay: Bytes) {
    match Earliest(lits, hay)
    case None => !Occurs(lits, ahead + hay)
    case Some(hit) =>
      First(lits, ahead + hay, hit.index, |ahead| + hit.start)
  }

  /** Scanning the window finds exactly the leftmost occurrence in the whole grown segment. */
  lemma WindowIsEnough(m: Matcher, ahead: Bytes, buf: Bytes, chunk: Bytes)
    requires Valid(m) && !Occurs(m.lits, ahead + buf)
    requires |buf| == Min(m.lookback, |ahead + buf|)
    ensures ScanAnswers(m.lits, ahead, buf + chunk)
  {
    var grown := ahead + (buf + chunk);
    EarliestIsLeftmost(m.lits, buf + chunk);
    forall k, i | 0 <= k < |m.lits| && 0 <= i
      ensures i < |ahead| ==> !OccursAt(m.lits[k], grown, i)
      ensures i >= |ahead| ==> (OccursAt(m.lits[k], grown, i) <==> OccursAt(m.lits[k], buf + chunk, i - |ahead|))
    {
      if i < |ahead| {
        NothingStartsAhead(m, ahead, buf, chunk, k, i);
      } else {
        OccursAtShift(m.lits[k], ahead, buf + chunk, i - |ahead|);
      }
    }
  }

  /** The window holds the segment from offset `|ahead|` on. */
  ghost predicate Aligned(w: Window, h: History, ahead: Bytes) {
    h.segment == ahead + w.buf && w.base == Wrap64(h.start + |ahead|)
  }

  /** Moving on by `i` from a base that is `n` past `start`. */
  lemma RebaseAdds(base: U64, start: U64, n: nat, i: nat)
    requires base == Wrap64(start + n)
    ensures Wrap64(base + i) == Wrap64(start + (n + i))
  {
    WrapAdd(start + n, i);
  }

  /** The trimmed window starts as far into the segment as it is shorter. */
  lemma TrimmedBase(base: U64, start: U64, ahead: nat, drop: nat, segment: nat, buf: nat)
    requires base == Wrap64(start + ahead) && segment - buf == ahead + drop
    ensures Wrap64(base + drop) == Wrap64(start + segment - buf)
  {
    RebaseAdds(base, start, ahead, drop);
  }

  lemma TailOfTail(ahead: Bytes, buf: Bytes, segment: Bytes, drop: nat)
    requires drop <= |buf| && segment == ahead + buf
    ensures segment[|ahead| + drop..] == buf[drop..] && |segment| - |buf[drop..]| == |ahead| + drop
  {
  }

  lemma TrimFieldByField(w: Window, lookback: nat, drop: nat)
    requires drop == if |w.buf| > lookback then |w.buf| - lookback else 0
    ensures Trim(w, lookback).buf == w.buf[drop..] && Trim(w, lookback).base == Wrap64(w.base + drop)
  {
  }

  lemma TrimSyncs(m: Matcher, w: Window, h: History, ahead: Bytes)
    requires Aligned(w, h, ahead) && (ahead == [] || |w.buf| >= m.lookback)
    requires Clean(m.lits, h)
    ensures Sync(m, Trim(w, m.lookback), h)
  {
    var drop: nat := if |w.buf| > m.lookback then |w.buf| - m.lookback else 0;
    TrimFieldByField(w, m.lookback, drop);
    TailOfTail(ahead, w.buf, h.segment, drop);
    TrimmedBase(w.base, h.start, |ahead|, drop, |h.segment|, |w.buf[drop..]|);
  }

  /** In the window the context reaches back by half the budget, or to the window's first byte. */
  lemma ContextInWindow(m: Matcher, w: Window, hit: Hit)
    requires hit.index < |m.names| && hit.start <= hit.end <= |w.buf|
    ensures QuotesFrom(Lift(m, w, hit), m.context, w.buf, w.base, hit.start, hit.end, Min(m.context / 2, hit.start))
  {
  }

  lemma OffsetInSegment(base: U64, start: U64, ahead: nat, i: nat, at: nat)
    requires base == Wrap64(start + ahead) && at == ahead + i
    ensures Wrap64(base + i) == Wrap64(start + at)
  {
    RebaseAdds(base, start, ahead, i);
  }

  lemma HitQuotes(p: PatternMatch, limit: nat, buf: Bytes, base: U64, from: nat, to: nat, lead: nat,
                  ahead: Bytes, segment: Bytes, start: U64)
    requires segment == ahead + buf && base == Wrap64(start + |ahead|)
    requires QuotesFrom(p, limit, buf, base, from, to, lead)
    ensures QuotesFrom(p, limit, segment, start, |ahead| + from, |ahead| + to, lead)
  {
    OccursAtShift(p.context, ahead, buf, from - lead);
    OffsetInSegment(base, start, |ahead|, from - lead, |ahead| + from - lead);
  }

  lemma LiftPlaces(m: Matcher, w: Window, hit: Hit)
    requires hit.index < |m.names| && hit.start <= hit.end <= |w.buf|
    ensures Places(Lift(m, w, hit), m.names[hit.index], w.base, hit.start, hit.end)
  {
  }

  lemma PlacesInSegment(p: PatternMatch, pattern: string, base: U64, from: nat, to: nat, start: U64, ahead: nat)
    requires Places(p, pattern, base, from, to) && base == Wrap64(start + ahead)
    ensures Places(p, pattern, start, ahead + from, ahead + to)
  {
    OffsetInSegment(base, start, ahead, from, ahead + from);
    OffsetInSegment(base, start, ahead, to, ahead + to);
  }

  /** The report places the hit and its context at their offsets in the segment. */
  lemma HitDescribes(m: Matcher, w: Window, h: History, ahead: Bytes, hit: Hit)
    requires Aligned(w, h, ahead) && |m.names| == |m.lits| && First(m.lits, h.segment, hit.index, |ahead| + hit.start)
    requires hit.end == hit.start + |m.lits[hit.index]| <= |w.buf|
    ensures Describes(m, Lift(m, w, hit), h, hit.index, |ahead| + hit.start)
  {
    var p, lead, at := Lift(m, w, hit), Min(m.context / 2, hit.start), |ahead| + hit.start;
    ContextInWindow(m, w, hit);
    HitQuotes(p, m.context, w.buf, w.base, hit.start, hit.end, lead, ahead, h.segment, h.start);
    LiftPlaces(m, w, hit);
    PlacesInSegment(p, m.names[hit.index], w.base, hit.start, hit.end, h.start, |ahead|);
    assert |ahead| + hit.end == at + |m.lits[hit.index]|;
  }

  /** A chunk that follows without loss. */
  lemma ContiguousLands(m: Matcher, w: Window, h: History, chunk: Bytes)
    requires Valid(m) && Sync(m, w, h)
    ensures var w', h', ahead := Ingest(w, Feed(chunk, 0)), Observe(h, Feed(chunk, 0)), h.segment[..|h.segment| - |w.buf|];
            && Aligned(w', h', ahead) && (ahead == [] || |w'.buf| >= m.lookback)
            && ScanAnswers(m.lits, ahead, w'.buf)
  {
    var ahead := h.segment[..|h.segment| - |w.buf|];
    assert h.segment == ahead + w.buf;
    FeedFieldByField(w, chunk, 0);
    WindowIsEnough(m, ahead, w.buf, chunk);
    Regroup(ahead, w.buf, chunk);
  }

  /** The window ends where its segment ends. */
  lemma WindowEnd(base: U64, start: U64, segment: nat, buf: nat)
    requires buf <= segment && base == Wrap64(start + segment - buf)
    ensures Wrap64(base + buf) == Wrap64(start + segment)
  {
    WrapAdd(start + segment - buf, buf);
  }

  lemma FreshScan(m: Matcher, bytes: Bytes)
    requires Valid(m)
    ensures ScanAnswers(m.lits, [], bytes)
  {
    WindowIsEnough(m, [], [], bytes);
    NothingFirst(bytes);
  }

  /** A seed, or a chunk behind a gap: the window starts over with the new segment. */
  lemma FreshLands(m: Matcher, w: Window, h: History, e: Event)
    requires Valid(m) && Sync(m, w, h) && (e.Feed? ==> e.gapBefore > 0)
    ensures Aligned(Ingest(w, e), Observe(h, e), [])
    ensures ScanAnswers(m.lits, [], Ingest(w, e).buf)
  {
    match e {
      case Seed(ring, base, gap) =>
        SeedFieldByField(w, ring, base, gap);
        FreshScan(m, ring);
        NothingFirst(ring);
      case Feed(chunk, gap) =>
        FeedFieldByField(w, chunk, gap);
        FreshScan(m, chunk);
        NothingFirst(chunk);
        WindowEnd(w.base, h.start, |h.segment|, |w.buf|);
    }
  }

  /** One event: silence keeps the window in step with the stream, a report names the leftmost occurrence. */
  lemma EventIsExact(m: Matcher, w: Window, h: History, e: Event)
    requires Valid(m) && Sync(m, w, h)
    ensures Scan(m, Ingest(w, e)).None? <==> Clean(m.lits, Observe(h, e))
    ensures Scan(m, Ingest(w, e)).None? ==> Sync(m, Next(m, w, e), Observe(h, e))
    ensures Scan(m, Ingest(w, e)).Some? ==>
      exists k, at :: Describes(m, Scan(m, Ingest(w, e)).value, Observe(h, e), k, at)
  {
    var ahead := if e.Feed? && e.gapBefore == 0 then h.segment[..|h.segment| - |w.buf|] else [];
    if e.Feed? && e.gapBefore == 0 {
      ContiguousLands(m, w, h, e.chunk);
    } else {
      FreshLands(m, w, h, e);
    }
    ClosedAfterEvent(m.lits, h, e);
    LandedIsExact(m, Ingest(w, e), Observe(h, e), ahead);
  }

  lemma ClosedAfterEvent(lits: seq<Bytes>, h: History, e: Event)
    requires Clean(lits, h)
    ensures Clean(lits, Observe(h, e)) <==> !Occurs(lits, Observe(h, e).segment)
  {
  }

  /** A window in line with its segment, scanned: silence is cleanliness, and a report describes the segment. */
  lemma LandedIsExact(m: Matcher, w: Window, h: History, ahead: Bytes)
    requires Valid(m) && Aligned(w, h, ahead) && (ahead == [] || |w.buf| >= m.lookback)
    requires ScanAnswers(m.lits, ahead, w.buf) && (Clean(m.lits, h) <==> !Occurs(m.lits, h.segment))
    ensures Scan(m, w).None? <==> Clean(m.lits, h)
    ensures Scan(m, w).None? ==> Sync(m, Trim(w, m.lookback), h)
    ensures Scan(m, w).Some? ==> exists k, at :: Describes(m, Scan(m, w).value, h, k, at)
  {
    match Earliest(m.lits, w.buf)
    case None => TrimSyncs(m, w, h, ahead);
    case Some(hit) => HitDescribes(m, w, h, ahead, hit);
  }

  // ---- Whole runs ----

  datatype Outcome = Waiting(window: Window) | Matched(found: PatternMatch, seen: nat)

  /** Feed events until one produces a match; `seen` counts the events up to and including it. */
  function Watch(m: Matcher, w: Window, es: seq<Event>): Outcome
    requires |m.names| == |m.lits|
    decreases es
  {
    if es == [] then Waiting(w)
    else
      match Scan(m, Ingest(w, es[0]))
      case Some(p) => Matched(p, 1)
      case None =>
        match Watch(m, Next(m, w, es[0]), es[1..])
        case Waiting(w') => Waiting(w')
        case Matched(p, n) => Matched(p, n + 1)
  }

  lemma {:induction false} OccursInExtension(lits: seq<Bytes>, hay: Bytes, more: Bytes)
    requires Occurs(lits, hay)
    ensures Occurs(lits, hay + more)
  {
    var k, i :| 0 <= k < |lits| && 0 <= i && OccursAt(lits[k], hay, i);
    OccursAtPrefix(lits[k], hay, more, i);
  }

  /** Once a literal has occurred in a segment it stays part of the observed stream. */
  lemma {:induction false} DirtStays(lits: seq<Bytes>, h: History, es: seq<Event>)
    requires !Clean(lits, h)
    ensures !Clean(lits, ObserveAll(h, es))
    decreases es
  {
    if es != [] {
      var h' := Observe(h, es[0]);
      if Occurs(lits, h.segment) {
        if h'.closed == h.closed {
          OccursInExtension(lits, h.segment, es[0].chunk);
        } else {
          assert Segment(h.start, h.segment) in h'.closed;
        }
      } else {
        var s :| s in h.closed && Occurs(lits, s.bytes);
        assert s in h'.closed;
      }
      DirtStays(lits, h', es[1..]);
    }
  }

  /** Event `n` completed the first occurrence, and `p` describes the leftmost one at that point. */
  ghost predicate CompletedBy(m: Matcher, h: History, es: seq<Event>, p: PatternMatch, n: nat)
    requires |m.names| == |m.lits|
  {
    && 1 <= n <= |es|
    && Clean(m.lits, ObserveAll(h, es[..n - 1])) && !Clean(m.lits, ObserveAll(h, es[..n]))
    && exists k, at :: Describes(m, p, ObserveAll(h, es[..n]), k, at)
  }

  lemma CompletedLater(m: Matcher, h: History, es: seq<Event>, p: PatternMatch, n: nat)
    requires |m.names| == |m.lits| && es != []
    requires CompletedBy(m, Observe(h, es[0]), es[1..], p, n)
    ensures CompletedBy(m, h, es, p, n + 1)
  {
    assert es[..n + 1][1..] == es[1..][..n] && es[..n][1..] == es[1..][..n - 1];
  }

  /**
   * Exactness over any sequence of seeds, chunks and gaps: the wait is still open exactly when no
   * literal occurs in any gap-free segment observed so far. While open the window holds at most
   * `lookback` bytes that end where the observed stream ends; a report comes with the very event
   * that completed the first occurrence, and describes the leftmost occurrence at that point.
   */
  lemma {:induction false} WatchIsExact(m: Matcher, w: Window, h: History, es: seq<Event>)
    requires Valid(m) && Sync(m, w, h)
    ensures Watch(m, w, es).Waiting? <==> Clean(m.lits, ObserveAll(h, es))
    ensures Watch(m, w, es).Waiting? ==> Sync(m, Watch(m, w, es).window, ObserveAll(h, es))
    ensures Watch(m, w, es).Matched? ==> CompletedBy(m, h, es, Watch(m, w, es).found, Watch(m, w, es).seen)
    decreases es
  {
    if es != [] {
      var e, rest := es[0], es[1..];
      var h' := Observe(h, e);
      EventIsExact(m, w, h, e);
      if Scan(m, Ingest(w, e)).Some? {
        DirtStays(m.lits, h', rest);
        assert es[..0] == [] && es[..1] == [e];
        assert ObserveAll(h, [e]) == ObserveAll(h', []) == h';
      } else {
        WatchIsExact(m, Next(m, w, e), h', rest);
        if Watch(m, w, es).Matched? {
          CompletedLater(m, h, es, Watch(m, w, es).found, Watch(m, w, es).seen - 1);
        }
      }
    }
  }

  /** A new wait starts in step with the stream, with nothing observed. */
  lemma NewWaitSyncs(m: Matcher, base: U64)
    requires Valid(m)
    ensures Sync(m, NewWindow(base), History([], [], base))
  {
    assert !Occurs(m.lits, []);
    assert Wrap64(base) == base;
  }
}
