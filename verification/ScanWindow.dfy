/** The scan window object of an armed pattern wait, updated in place (daemon/src/pattern.rs). */
module ScanWindow {
  import opened Basics
  import P = PatternWait

  class ScanWindow {
    const matcher: P.Matcher
    var buf: P.Bytes
    var base: U64
    var scanned: U64
    var gaps: U64
    var gapBytes: U64
    /** The stream observed so far, as gap-free segments. */
    ghost var history: P.History

    ghost function View(): P.Window
      reads this
    {
      P.Window(buf, base, scanned, gaps, gapBytes)
    }

    /** Nothing has matched, and the window is the tail of the current segment. */
    ghost predicate Open()
      reads this
    {
      P.Valid(matcher) && P.Sync(matcher, View(), history)
    }

    constructor (matcher: P.Matcher, base: U64)
      requires P.Valid(matcher)
      ensures View() == P.NewWindow(base) && this.matcher == matcher
      ensures history == P.History([], [], base) && Open()
    {
      this.matcher := matcher;
      this.base := base;
      buf, scanned, gaps, gapBytes := [], 0, 0, 0;
      history := P.History([], [], base);
      P.NewWaitSyncs(matcher, base);
    }

    method Scan() returns (hit: Option<P.PatternMatch>)
      requires |matcher.names| == |matcher.lits|
      ensures hit == P.Scan(matcher, View())
    {
      var found := P.Earliest(matcher.lits, buf);
      match found {
        case None => hit := None;
        case Some(h) => hit := Some(P.Lift(matcher, P.Window(buf, base, scanned, gaps, gapBytes), h));
      }
    }

    method Trim()
      modifies this`buf, this`base
      ensures View() == P.Trim(old(View()), matcher.lookback)
    {
      if |buf| > matcher.lookback {
        var drop := |buf| - matcher.lookback;
        buf := buf[drop..];
        base := Wrap64(base + drop);
      }
    }

    /** The bytes of a ring snapshot replace the window. */
    method Restart(ring: P.Bytes, base: U64, excludedGap: U64)
      modifies this`buf, this`base, this`scanned, this`gaps, this`gapBytes
      ensures View() == P.Ingest(old(View()), P.Seed(ring, base, excludedGap))
    {
      P.SeedFieldByField(View(), ring, base, excludedGap);
      if excludedGap > 0 {
        gaps := Wrap64(gaps + 1);
        gapBytes := Saturate64(gapBytes + excludedGap);
      }
      this.base := base;
      buf := ring;
      scanned := Wrap64(scanned + |ring|);
    }

    /** The bytes of a chunk join the window; a gap before them empties it first. */
    method Append(chunk: P.Bytes, gapBefore: U64)
      modifies this`buf, this`base, this`scanned, this`gaps, this`gapBytes
      ensures View() == P.Ingest(old(View()), P.Feed(chunk, gapBefore))
    {
      P.FeedFieldByField(View(), chunk, gapBefore);
      if gapBefore > 0 {
        gaps := Wrap64(gaps + 1);
        gapBytes := Saturate64(gapBytes + gapBefore);
        base := Wrap64(base + |buf|);
        buf := [];
      }
      buf := buf + chunk;
      scanned := Wrap64(scanned + |chunk|);
    }

    /** Start over from the replay ring; the answer is about the ring's bytes alone. */
    method Seed(ring: P.Bytes, base: U64, excludedGap: U64) returns (hit: Option<P.PatternMatch>)
      requires Open()
      modifies this
      ensures var e := P.Seed(ring, base, excludedGap);
              && View() == P.Next(matcher, old(View()), e)
              && hit == P.Scan(matcher, P.Ingest(old(View()), e))
              && history == P.Observe(old(history), e)
      ensures hit.None? <==> P.Clean(matcher.lits, history)
      ensures hit.None? ==> Open()
      ensures hit.Some? ==> exists k, at :: P.Describes(matcher, hit.value, history, k, at)
    {
      ghost var e := P.Seed(ring, base, excludedGap);
      P.EventIsExact(matcher, View(), history, e);
      Restart(ring, base, excludedGap);
      history := P.Observe(history, e);
      hit := Scan();
      if hit.None? {
        Trim();
      }
    }

    /** Take one chunk; a gap before it empties the window first. */
    method Feed(chunk: P.Bytes, gapBefore: U64) returns (hit: Option<P.PatternMatch>)
      requires Open()
      modifies this
      ensures var e := P.Feed(chunk, gapBefore);
              && View() == P.Next(matcher, old(View()), e)
              && hit == P.Scan(matcher, P.Ingest(old(View()), e))
              && history == P.Observe(old(history), e)
      ensures hit.None? <==> P.Clean(matcher.lits, history)
      ensures hit.None? ==> Open()
      ensures hit.Some? ==> exists k, at :: P.Describes(matcher, hit.value, history, k, at)
    {
      ghost var e := P.Feed(chunk, gapBefore);
      P.EventIsExact(matcher, View(), history, e);
      Append(chunk, gapBefore);
      history := P.Observe(history, e);
      hit := Scan();
      if hit.None? {
        Trim();
      }
    }
  }
}
