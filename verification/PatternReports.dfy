/** When a pattern wait's report is a function of the observed stream, and when it depends on how the stream is cut (daemon/src/pattern.rs). */
module PatternReports {
  import opened Basics
  import opened PatternWait

  // ---- Which requests settle the report ----

  /** A literal ahead of number `i` in the request is a prefix of it, so `i` never wins where it starts. */
  predicate Shadowed(lits: seq<Bytes>, i: nat)
    requires i < |lits|
  {
    exists k :: 0 <= k < i && lits[k] <= lits[i]
  }

  /** Some literal occurs inside number `i` and is complete before it. */
  predicate Overtaken(lits: seq<Bytes>, i: nat)
    requires i < |lits|
  {
    exists j, o :: 0 <= j < |lits| && 0 <= o < |lits[i]| && Inside(lits[j], lits[i], o)
  }

  predicate Inside(inner: Bytes, outer: Bytes, o: nat) {
    OccursAt(inner, outer, o) && o + |inner| < |outer|
  }

  /** Every literal that can win is complete no later than any literal inside it. */
  predicate Settles(lits: seq<Bytes>) {
    forall i :: 0 <= i < |lits| && !Shadowed(lits, i) ==> !Overtaken(lits, i)
  }

  /** One literal is never complete before itself. */
  lemma OneLiteralSettles(lit: Bytes)
    ensures Settles([lit])
  {
  }

  // ---- Under that condition more bytes never change the hit ----

  /** An occurrence in the extension that is not one in `hay` reaches past its end. */
  lemma LateReachesPast(lit: Bytes, hay: Bytes, more: Bytes, i: nat)
    requires OccursAt(lit, hay + more, i) && !OccursAt(lit, hay, i)
    ensures i + |lit| > |hay|
  {
    if i + |lit| <= |hay| {
      OccursAtPrefix(lit, hay, more, i);
    }
  }

  /** An occurrence between the start and the end of a longer one lies inside it. */
  lemma LiesInside(inner: Bytes, outer: Bytes, hay: Bytes, p: nat, i: nat)
    requires OccursAt(outer, hay, i) && OccursAt(inner, hay, p) && i <= p && p + |inner| < i + |outer|
    ensures Inside(inner, outer, p - i)
  {
    SliceOfSlice(hay, i, i + |outer|, p - i, p - i + |inner|);
  }

  /** The unshadowed literal that wins wherever number `i` starts. */
  lemma {:induction false} WinnerBelow(lits: seq<Bytes>, i: nat) returns (k: nat)
    requires i < |lits|
    ensures k <= i && lits[k] <= lits[i] && !Shadowed(lits, k)
    decreases i
  {
    if Shadowed(lits, i) {
      var j :| 0 <= j < i && lits[j] <= lits[i];
      k := WinnerBelow(lits, j);
      assert lits[k] <= lits[j] <= lits[i];
    } else {
      k := i;
    }
  }

  lemma PrefixOccurs(short: Bytes, lit: Bytes, hay: Bytes, i: nat)
    requires short <= lit && OccursAt(lit, hay, i)
    ensures OccursAt(short, hay, i)
  {
    assert hay[i..i + |short|] == lit[..|short|];
  }

  /**
   * Literal `i` starts at `from` in the extension, no later than the hit and ahead of it in the request if
   * at the same place: then some literal already occurs there in `hay`.
   */
  lemma NothingOvertakes(lits: seq<Bytes>, hay: Bytes, more: Bytes, hit: Hit, i: nat, from: nat) returns (k: nat)
    requires Settles(lits) && hit.index < |lits| && OccursAt(lits[hit.index], hay, hit.start)
    requires i < |lits| && from <= hit.start && OccursAt(lits[i], hay + more, from)
    ensures k <= i && OccursAt(lits[k], hay, from)
  {
    k := WinnerBelow(lits, i);
    PrefixOccurs(lits[k], lits[i], hay + more, from);
    if !OccursAt(lits[k], hay, from) {
      LateReachesPast(lits[k], hay, more, from);
      OccursAtPrefix(lits[hit.index], hay, more, hit.start);
      LiesInside(lits[hit.index], lits[k], hay + more, hit.start, from);
      assert Overtaken(lits, k);
    }
  }

  /** Leftmost, and first in the request among equal starts, is one hit. */
  lemma LeftmostIsUnique(lits: seq<Bytes>, hay: Bytes, k: nat, at: nat)
    requires First(lits, hay, k, at)
    ensures Earliest(lits, hay) == Some(Hit(k, at, at + |lits[k]|))
  {
    EarliestIsLeftmost(lits, hay);
    assert Occurs(lits, hay);
    var hit := Earliest(lits, hay).value;
    assert hit.start == at;
    assert hit.index == k;
  }

  /** A hit stands whatever bytes follow. */
  lemma HitStands(lits: seq<Bytes>, hay: Bytes, more: Bytes)
    requires Settles(lits) && Occurs(lits, hay)
    ensures Earliest(lits, hay + more) == Earliest(lits, hay)
  {
    EarliestIsLeftmost(lits, hay);
    var hit := Earliest(lits, hay).value;
    OccursAtPrefix(lits[hit.index], hay, more, hit.start);
    forall i, from | 0 <= i < |lits| && 0 <= from < hit.start ensures !OccursAt(lits[i], hay + more, from) {
      if OccursAt(lits[i], hay + more, from) {
        var k := NothingOvertakes(lits, hay, more, hit, i, from);
      }
    }
    forall i | 0 <= i < hit.index ensures !OccursAt(lits[i], hay + more, hit.start) {
      if OccursAt(lits[i], hay + more, hit.start) {
        var k := NothingOvertakes(lits, hay, more, hit, i, hit.start);
      }
    }
    LeftmostIsUnique(lits, hay + more, hit.index, hit.start);
  }

  // ---- The observed stream at and after the report ----

  /** Events only extend the observed stream: closed segments are final, the current one grows or closes. */
  lemma {:induction false} HistoryGrows(h: History, es: seq<Event>)
    ensures var segs := ObserveAll(h, es).Close();
            && |h.closed| < |segs| && segs[..|h.closed|] == h.closed
            && segs[|h.closed|].start == h.start && h.segment <= segs[|h.closed|].bytes
    decreases es
  {
    if es != [] {
      HistoryGrows(Observe(h, es[0]), es[1..]);
    }
  }

  lemma {:induction false} ObserveSplits(h: History, es: seq<Event>, n: nat)
    requires n <= |es|
    ensures ObserveAll(h, es) == ObserveAll(ObserveAll(h, es[..n]), es[n..])
    decreases n
  {
    if n > 0 {
      ObserveSplits(Observe(h, es[0]), es[1..], n - 1);
      assert es[..n][1..] == es[1..][..n - 1] && es[n..] == es[1..][n - 1..];
    } else {
      assert es[..0] == [] && es[0..] == es;
    }
  }

  /** One event closes at most the current segment, so segments closed after it were clean if the stream was. */
  lemma ClosedStaysClean(lits: seq<Bytes>, h: History, e: Event)
    requires Clean(lits, h)
    ensures forall s :: s in Observe(h, e).closed ==> !Occurs(lits, s.bytes)
  {
  }

  lemma LastEvent(h: History, es: seq<Event>, n: nat)
    requires 1 <= n <= |es|
    ensures ObserveAll(h, es[..n]) == Observe(ObserveAll(h, es[..n - 1]), es[n - 1])
  {
    ObserveSplits(h, es[..n], n - 1);
    assert es[..n][..n - 1] == es[..n - 1] && es[..n][n - 1..] == [es[n - 1]];
    var before := ObserveAll(h, es[..n - 1]);
    assert [es[n - 1]][1..] == [];
    assert ObserveAll(before, [es[n - 1]]) == ObserveAll(Observe(before, es[n - 1]), []);
  }

  /** Segment `c` is the first in which a literal occurs. */
  ghost predicate FirstDirty(lits: seq<Bytes>, segs: seq<Segment>, c: nat) {
    c < |segs| && Occurs(lits, segs[c].bytes) && forall j :: 0 <= j < c ==> !Occurs(lits, segs[j].bytes)
  }

  /** The report places `hit` in a segment that starts at `start`. */
  predicate Reports(m: Matcher, p: PatternMatch, start: U64, hit: Hit) {
    hit.index < |m.names| && Places(p, m.names[hit.index], start, hit.start, hit.end)
  }

  lemma DescribedIsHit(m: Matcher, p: PatternMatch, h: History, k: nat, at: nat)
    requires |m.names| == |m.lits| && Describes(m, p, h, k, at)
    ensures var hit := Hit(k, at, at + |m.lits[k]|); Earliest(m.lits, h.segment) == Some(hit) && Reports(m, p, h.start, hit)
  {
    LeftmostIsUnique(m.lits, h.segment, k, at);
  }

  lemma HitStandsInLonger(lits: seq<Bytes>, hay: Bytes, longer: Bytes)
    requires Settles(lits) && Earliest(lits, hay).Some? && hay <= longer
    ensures Earliest(lits, longer) == Earliest(lits, hay) && Occurs(lits, longer)
  {
    EarliestIsLeftmost(lits, hay);
    EarliestIsLeftmost(lits, longer);
    assert longer == hay + longer[|hay|..];
    HitStands(lits, hay, longer[|hay|..]);
  }

  /** Segments before the reported one are clean in the stream as it later became. */
  lemma FirstDirtyStays(lits: seq<Bytes>, h: History, segs: seq<Segment>)
    requires forall s :: s in h.closed ==> !Occurs(lits, s.bytes)
    requires |h.closed| < |segs| && segs[..|h.closed|] == h.closed && Occurs(lits, segs[|h.closed|].bytes)
    ensures FirstDirty(lits, segs, |h.closed|)
  {
    forall j | 0 <= j < |h.closed| ensures !Occurs(lits, segs[j].bytes) {
      assert segs[j] == h.closed[j];
    }
  }

  /** The stream at the moment of the report: everything closed is clean, and the hit is in the current segment. */
  lemma AtTheReport(m: Matcher, h: History, es: seq<Event>, p: PatternMatch, n: nat) returns (hit: Hit)
    requires |m.names| == |m.lits| && CompletedBy(m, h, es, p, n)
    ensures var hn := ObserveAll(h, es[..n]);
            && Earliest(m.lits, hn.segment) == Some(hit) && Reports(m, p, hn.start, hit)
            && forall s :: s in hn.closed ==> !Occurs(m.lits, s.bytes)
  {
    var hn := ObserveAll(h, es[..n]);
    var k: nat, at: nat :| Describes(m, p, hn, k, at);
    hit := Hit(k, at, at + |m.lits[k]|);
    DescribedIsHit(m, p, hn, k, at);
    LastEvent(h, es, n);
    ClosedStaysClean(m.lits, ObserveAll(h, es[..n - 1]), es[n - 1]);
  }

  /** The report is of the leftmost hit in the first segment that has one. */
  ghost predicate OfStream(m: Matcher, segs: seq<Segment>, p: PatternMatch) {
    exists c: nat, hit :: FirstDirty(m.lits, segs, c) && Earliest(m.lits, segs[c].bytes) == Some(hit) &&
                          Reports(m, p, segs[c].start, hit)
  }

  lemma CompletedIsOfStream(m: Matcher, h: History, es: seq<Event>, p: PatternMatch, n: nat)
    requires Valid(m) && Settles(m.lits) && CompletedBy(m, h, es, p, n)
    ensures OfStream(m, ObserveAll(h, es).Close(), p)
  {
    var hn, segs := ObserveAll(h, es[..n]), ObserveAll(h, es).Close();
    var hit := AtTheReport(m, h, es, p, n);
    ObserveSplits(h, es, n);
    HistoryGrows(hn, es[n..]);
    var c := |hn.closed|;
    HitStandsInLonger(m.lits, hn.segment, segs[c].bytes);
    FirstDirtyStays(m.lits, hn, segs);
    assert FirstDirty(m.lits, segs, c) && Earliest(m.lits, segs[c].bytes) == Some(hit) && Reports(m, p, segs[c].start, hit);
  }

  /** The report of a settled request is a function of the observed stream, whatever the schedule. */
  lemma ReportIsOfStream(m: Matcher, w: Window, h: History, es: seq<Event>)
    requires Valid(m) && Settles(m.lits) && Sync(m, w, h)
    ensures Watch(m, w, es).Matched? ==> OfStream(m, ObserveAll(h, es).Close(), Watch(m, w, es).found)
  {
    var r := Watch(m, w, es);
    WatchIsExact(m, w, h, es);
    if r.Matched? {
      CompletedIsOfStream(m, h, es, r.found, r.seen);
    }
  }

  // ---- Exactly when the report does not depend on the chunking ----

  lemma WaitsIffClean(m: Matcher, w: Window, h: History, es: seq<Event>)
    requires Valid(m) && Sync(m, w, h)
    ensures Watch(m, w, es).Waiting? <==> Clean(m.lits, ObserveAll(h, es))
  {
    WatchIsExact(m, w, h, es);
  }

  /** Two schedules of the same observed stream settle alike, whatever the request. */
  lemma ChunkingIsIrrelevant(m: Matcher, w1: Window, w2: Window, h: History, es1: seq<Event>, es2: seq<Event>)
    requires Valid(m) && Sync(m, w1, h) && Sync(m, w2, h)
    requires ObserveAll(h, es1) == ObserveAll(h, es2)
    ensures Watch(m, w1, es1).Matched? <==> Watch(m, w2, es2).Matched?
  {
    WaitsIffClean(m, w1, h, es1);
    WaitsIffClean(m, w2, h, es2);
  }

  predicate SameReport(p: PatternMatch, q: PatternMatch) {
    p.pattern == q.pattern && p.offset == q.offset && p.endOffset == q.endOffset
  }

  /** Both outcomes wait, or both report the same. */
  predicate Agree(a: Outcome, b: Outcome) {
    a.Matched? == b.Matched? && (a.Matched? ==> SameReport(a.found, b.found))
  }

  lemma FirstDirtyIsUnique(lits: seq<Bytes>, segs: seq<Segment>, c: nat, d: nat)
    requires FirstDirty(lits, segs, c) && FirstDirty(lits, segs, d)
    ensures c == d
  {
  }

  lemma OfStreamIsUnique(m: Matcher, segs: seq<Segment>, p: PatternMatch, q: PatternMatch)
    requires OfStream(m, segs, p) && OfStream(m, segs, q)
    ensures SameReport(p, q)
  {
    var c: nat, hit :| FirstDirty(m.lits, segs, c) && Earliest(m.lits, segs[c].bytes) == Some(hit) &&
                       Reports(m, p, segs[c].start, hit);
    var d: nat, hit' :| FirstDirty(m.lits, segs, d) && Earliest(m.lits, segs[d].bytes) == Some(hit') &&
                        Reports(m, q, segs[d].start, hit');
    FirstDirtyIsUnique(m.lits, segs, c, d);
  }

  /** A settled request reports the same pattern at the same offsets, however the stream is cut. */
  lemma ChunkingKeepsReport(m: Matcher, w1: Window, w2: Window, h: History, es1: seq<Event>, es2: seq<Event>)
    requires Valid(m) && Settles(m.lits) && Sync(m, w1, h) && Sync(m, w2, h)
    requires ObserveAll(h, es1) == ObserveAll(h, es2)
    ensures Agree(Watch(m, w1, es1), Watch(m, w2, es2))
  {
    ChunkingIsIrrelevant(m, w1, w2, h, es1, es2);
    ReportIsOfStream(m, w1, h, es1);
    ReportIsOfStream(m, w2, h, es2);
    if Watch(m, w1, es1).Matched? {
      OfStreamIsUnique(m, ObserveAll(h, es1).Close(), Watch(m, w1, es1).found, Watch(m, w2, es2).found);
    }
  }

  lemma PrefixIffAtStart(lit: Bytes, hay: Bytes)
    ensures OccursAt(lit, hay, 0) <==> lit <= hay
  {
  }

  lemma WholeHit(lits: seq<Bytes>, i: nat)
    requires i < |lits| && !Shadowed(lits, i)
    ensures Earliest(lits, lits[i]) == Some(Hit(i, 0, |lits[i]|))
  {
    PrefixIffAtStart(lits[i], lits[i]);
    forall k | 0 <= k < i ensures !OccursAt(lits[k], lits[i], 0) {
      PrefixIffAtStart(lits[k], lits[i]);
    }
    LeftmostIsUnique(lits, lits[i], i, 0);
  }

  lemma CutHit(lits: seq<Bytes>, i: nat, j: nat, o: nat)
    requires i < |lits| && j < |lits| && Inside(lits[j], lits[i], o)
    ensures var cut := lits[i][..o + |lits[j]|]; Earliest(lits, cut).Some? && Earliest(lits, cut).value.end <= |cut|
  {
    var n := o + |lits[j]|;
    SliceOfSlice(lits[i], 0, n, o, n);
    assert OccursAt(lits[j], lits[i][..n], o);
    EarliestIsLeftmost(lits, lits[i][..n]);
  }

  /** A first chunk that has a hit settles the wait, whatever follows. */
  lemma FirstChunkReports(m: Matcher, bytes: Bytes, more: seq<Event>)
    requires |m.names| == |m.lits| && Earliest(m.lits, bytes).Some?
    ensures var r := Watch(m, NewWindow(0), [Feed(bytes, 0)] + more);
            r.Matched? && Reports(m, r.found, 0, Earliest(m.lits, bytes).value)
  {
    assert ([Feed(bytes, 0)] + more)[0] == Feed(bytes, 0);
    assert [] + bytes == bytes;
  }

  lemma SmallIsUnwrapped(n: nat)
    requires n < U64_MODULUS
    ensures Wrap64(0 + n) == n
  {
  }

  /** The two cuts of the stream that spells literal `i`: whole, and behind its first `n` bytes. */
  function Whole(m: Matcher, i: nat): seq<Event>
    requires i < |m.lits|
  {
    [Feed(m.lits[i], 0)] + []
  }

  function Cut(m: Matcher, i: nat, n: nat): seq<Event>
    requires i < |m.lits| && n <= |m.lits[i]|
  {
    [Feed(m.lits[i][..n], 0)] + [Feed(m.lits[i][n..], 0)]
  }

  lemma SameObserved(m: Matcher, i: nat, n: nat)
    requires i < |m.lits| && n <= |m.lits[i]|
    ensures var h := History([], [], 0); ObserveAll(h, Whole(m, i)) == ObserveAll(h, Cut(m, i, n))
  {
    var lit, h := m.lits[i], History([], [], 0);
    var first, rest := Feed(lit[..n], 0), Feed(lit[n..], 0);
    assert ([first] + [rest])[1..] == [rest] && [rest][1..] == [] && ([Feed(lit, 0)] + [])[1..] == [];
    assert ObserveAll(h, Cut(m, i, n)) == ObserveAll(Observe(h, first), [rest]) == Observe(Observe(h, first), rest);
    assert lit[..n] + lit[n..] == lit && [] + lit[..n] == lit[..n] && [] + lit == lit;
  }

  /** The outcome is a report of this pattern that ends at `end`. */
  predicate ReportedTo(r: Outcome, pattern: string, end: nat) {
    r.Matched? && r.found.pattern == pattern && r.found.endOffset == end
  }

  /** The stream that spells an unshadowed literal, taken whole, reports that literal. */
  lemma WholeReports(m: Matcher, i: nat)
    requires Valid(m) && i < |m.lits| && !Shadowed(m.lits, i)
    ensures ReportedTo(Watch(m, NewWindow(0), Whole(m, i)), m.names[i], |m.lits[i]|)
  {
    WholeHit(m.lits, i);
    FirstChunkReports(m, m.lits[i], []);
    SmallIsUnwrapped(|m.lits[i]|);
  }

  /** Cut behind a literal that is complete inside it, it reports something that ends there or sooner. */
  lemma CutReports(m: Matcher, i: nat, j: nat, o: nat, n: nat)
    requires Valid(m) && i < |m.lits| && j < |m.lits| && Inside(m.lits[j], m.lits[i], o) && n == o + |m.lits[j]|
    ensures Watch(m, NewWindow(0), Cut(m, i, n)).Matched?
    ensures Watch(m, NewWindow(0), Cut(m, i, n)).found.endOffset <= n
  {
    CutHit(m.lits, i, j, o);
    FirstChunkReports(m, m.lits[i][..n], [Feed(m.lits[i][n..], 0)]);
    SmallIsUnwrapped(Earliest(m.lits, m.lits[i][..n]).value.end);
  }

  /** Every schedule of every stream, from every state a wait can be in: equal streams report the same. */
  ghost predicate Independent(m: Matcher)
    requires |m.names| == |m.lits|
  {
    forall h, w1, w2, es1, es2 ::
      Sync(m, w1, h) && Sync(m, w2, h) && ObserveAll(h, es1) == ObserveAll(h, es2) ==>
        Agree(Watch(m, w1, es1), Watch(m, w2, es2))
  }

  lemma SettledIsIndependent(m: Matcher)
    requires Valid(m) && Settles(m.lits)
    ensures Independent(m)
  {
    forall h, w1, w2, es1, es2 |
      Sync(m, w1, h) && Sync(m, w2, h) && ObserveAll(h, es1) == ObserveAll(h, es2)
      ensures Agree(Watch(m, w1, es1), Watch(m, w2, es2))
    {
      ChunkingKeepsReport(m, w1, w2, h, es1, es2);
    }
  }

  lemma OvertakenIsDependent(m: Matcher, i: nat, j: nat, o: nat)
    requires Valid(m) && i < |m.lits| && j < |m.lits| && !Shadowed(m.lits, i) && Inside(m.lits[j], m.lits[i], o)
    ensures !Independent(m)
  {
    var n := o + |m.lits[j]|;
    WholeReports(m, i);
    CutReports(m, i, j, o, n);
    NewWaitSyncs(m, 0);
    SameObserved(m, i, n);
    assert !Agree(Watch(m, NewWindow(0), Whole(m, i)), Watch(m, NewWindow(0), Cut(m, i, n)));
  }

  /** The exact condition, checkable on the request: the report never depends on the chunking iff it settles. */
  lemma IndependentIffSettles(m: Matcher)
    requires Valid(m)
    ensures Independent(m) <==> Settles(m.lits)
  {
    if Settles(m.lits) {
      SettledIsIndependent(m);
    } else {
      var i :| 0 <= i < |m.lits| && !Shadowed(m.lits, i) && Overtaken(m.lits, i);
      var j, o :| 0 <= j < |m.lits| && 0 <= o < |m.lits[i]| && Inside(m.lits[j], m.lits[i], o);
      OvertakenIsDependent(m, i, j, o);
    }
  }

  // ---- One literal ----

  /** The first occurrence of `lit` in a list of segments: in segment `c`, at `at`. */
  ghost predicate FirstIn(lit: Bytes, segs: seq<Segment>, c: nat, at: nat) {
    && c < |segs| && OccursAt(lit, segs[c].bytes, at)
    && (forall j, i :: 0 <= j < c && 0 <= i ==> !OccursAt(lit, segs[j].bytes, i))
    && (forall i :: 0 <= i < at ==> !OccursAt(lit, segs[c].bytes, i))
  }

  /** For one literal the report is its first occurrence in the observed stream. */
  lemma SingleLiteralIsFirst(m: Matcher, w: Window, h: History, es: seq<Event>) returns (c: nat, at: nat)
    requires Valid(m) && |m.lits| == 1 && Sync(m, w, h)
    requires Watch(m, w, es).Matched?
    ensures ReportsFirst(m, ObserveAll(h, es).Close(), Watch(m, w, es).found, c, at)
  {
    OneLiteralSettles(m.lits[0]);
    assert m.lits == [m.lits[0]];
    ReportIsOfStream(m, w, h, es);
    c, at := OfStreamIsFirst(m, ObserveAll(h, es).Close(), Watch(m, w, es).found);
  }

  ghost predicate ReportsFirst(m: Matcher, segs: seq<Segment>, p: PatternMatch, c: nat, at: nat)
    requires |m.lits| == |m.names| == 1
  {
    FirstIn(m.lits[0], segs, c, at) && Places(p, m.names[0], segs[c].start, at, at + |m.lits[0]|)
  }

  lemma HitIsFirstIn(lits: seq<Bytes>, segs: seq<Segment>, c: nat, hit: Hit)
    requires |lits| == 1 && FirstDirty(lits, segs, c) && Earliest(lits, segs[c].bytes) == Some(hit)
    ensures FirstIn(lits[0], segs, c, hit.start) && hit.index == 0 && hit.end == hit.start + |lits[0]|
  {
    EarliestIsLeftmost(lits, segs[c].bytes);
    forall j, i | 0 <= j < c && 0 <= i ensures !OccursAt(lits[0], segs[j].bytes, i) {
      assert !Occurs(lits, segs[j].bytes);
    }
  }

  lemma OfStreamIsFirst(m: Matcher, segs: seq<Segment>, p: PatternMatch) returns (c: nat, at: nat)
    requires |m.lits| == |m.names| == 1 && OfStream(m, segs, p)
    ensures ReportsFirst(m, segs, p, c, at)
  {
    var d: nat, hit :| FirstDirty(m.lits, segs, d) && Earliest(m.lits, segs[d].bytes) == Some(hit) &&
                       Reports(m, p, segs[d].start, hit);
    c, at := d, hit.start;
    HitIsFirstIn(m.lits, segs, d, hit);
  }

  // ---- An example ----

  const OuterAndInner := Matcher(["outer", "inner"], [[1, 2, 3], [2]], 3, 0)

  lemma FirstHalfScan()
    ensures Earliest(OuterAndInner.lits, [1, 2]) == Some(Hit(1, 1, 2))
  {
    var lits: seq<Bytes> := OuterAndInner.lits;
    assert [1, 2][0..1] == [1] && [1, 2][1..2] == [2];
    assert !OccursAt(lits[0], [1, 2], 0) && !OccursAt(lits[1], [1, 2], 0);
    assert !OccursAt(lits[0], [1, 2], 1) && OccursAt(lits[1], [1, 2], 1);
    LeftmostIsUnique(lits, [1, 2], 1, 1);
  }

  lemma ExampleIsOvertaken()
    ensures Valid(OuterAndInner) && !Shadowed(OuterAndInner.lits, 0)
    ensures Inside(OuterAndInner.lits[1], OuterAndInner.lits[0], 1)
  {
    var lits: seq<Bytes> := OuterAndInner.lits;
    assert MinLookback([[2]]) == 1 && lits[1..] == [[2]];
    assert lits[0][1..2] == [2];
  }

  /** Two cuts of one stream that report different literals: the inner one is complete before the outer. */
  lemma WhichLiteralDependsOnChunking()
    ensures Valid(OuterAndInner) && !Independent(OuterAndInner) && !Settles(OuterAndInner.lits)
    ensures var whole := Watch(OuterAndInner, NewWindow(0), Whole(OuterAndInner, 0));
            whole.Matched? && whole.found.pattern == "outer"
    ensures var cut := Watch(OuterAndInner, NewWindow(0), Cut(OuterAndInner, 0, 2));
            cut.Matched? && cut.found.pattern == "inner"
  {
    ExampleIsOvertaken();
    WholeReports(OuterAndInner, 0);
    OvertakenIsDependent(OuterAndInner, 0, 1, 1);
    IndependentIffSettles(OuterAndInner);
    FirstHalfScan();
    assert OuterAndInner.lits[0][..2] == [1, 2];
    FirstChunkReports(OuterAndInner, [1, 2], [Feed(OuterAndInner.lits[0][2..], 0)]);
  }

  // ---- The counters ----

  function Taken(e: Event): nat {
    match e
    case Seed(ring, _, _) => |ring|
    case Feed(chunk, _) => |chunk|
  }

  /** The bytes lost before an event. */
  function Gap(e: Event): nat {
    match e
    case Seed(_, _, gap) => gap
    case Feed(_, gap) => gap
  }

  function TotalTaken(es: seq<Event>): nat {
    if es == [] then 0 else Taken(es[0]) + TotalTaken(es[1..])
  }

  function GapCount(es: seq<Event>): nat {
    if es == [] then 0 else One(es[0]) + GapCount(es[1..])
  }

  function GapTotal(es: seq<Event>): nat {
    if es == [] then 0 else Gap(es[0]) + GapTotal(es[1..])
  }

  /** The counters of a window, apart from its bytes. */
  datatype Counters = Counters(scanned: U64, gaps: U64, gapBytes: U64)

  function CountersOf(w: Window): Counters {
    Counters(w.scanned, w.gaps, w.gapBytes)
  }

  /** Counters that went on by some bytes taken, some gaps and some bytes lost: two wrap around, the last saturates. */
  function Counted(c: Counters, bytes: nat, gaps: nat, lost: nat): Counters {
    Counters(Wrap64(c.scanned + bytes), Wrap64(c.gaps + gaps), Saturate64(c.gapBytes + lost))
  }

  lemma CountedTwice(c: Counters, bytes: nat, gaps: nat, lost: nat, bytes': nat, gaps': nat, lost': nat)
    ensures Counted(Counted(c, bytes, gaps, lost), bytes', gaps', lost') == Counted(c, bytes + bytes', gaps + gaps', lost + lost')
  {
    WrapAdd(c.scanned + bytes, bytes');
    WrapAdd(c.gaps + gaps, gaps');
  }

  function One(e: Event): nat {
    if Gap(e) > 0 then 1 else 0
  }

  lemma CountersOfEvent(m: Matcher, w: Window, e: Event)
    requires |m.names| == |m.lits|
    ensures CountersOf(Next(m, w, e)) == Counted(CountersOf(w), Taken(e), One(e), Gap(e))
  {
  }

  /** A wait still open has counted every byte it took, every gap and, saturating, every byte lost in them. */
  lemma {:induction false} CountersAreExact(m: Matcher, w: Window, es: seq<Event>)
    requires |m.names| == |m.lits| && Watch(m, w, es).Waiting?
    ensures CountersOf(Watch(m, w, es).window) == Counted(CountersOf(w), TotalTaken(es), GapCount(es), GapTotal(es))
    decreases es
  {
    if es != [] {
      CountersOfEvent(m, w, es[0]);
      CountersAreExact(m, Next(m, w, es[0]), es[1..]);
      CountedTwice(CountersOf(w), Taken(es[0]), One(es[0]), Gap(es[0]),
                   TotalTaken(es[1..]), GapCount(es[1..]), GapTotal(es[1..]));
    }
  }
}
