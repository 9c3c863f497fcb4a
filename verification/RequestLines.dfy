/** The capped, cancel-safe request-line reader of a control connection (daemon/src/control.rs). */
module RequestLines {
  import opened Basics
  import opened Utf8

  const MAX_REQUEST_LINE := 0x10_0000
  const LF: Byte := 10
  const CR: Byte := 13

  /** `Interrupted` is a call that was dropped, or whose read failed, before it had an answer. */
  datatype LineRead = Line(text: Text) | Eof | TooLong | BadUtf8 | Interrupted

  // ---- What a byte stream means as request lines ----

  /** Where the first line of `s` ends: its first line feed, or its end. */
  function LineEnd(s: seq<Byte>): (n: nat)
    ensures n <= |s|
  {
    if s == [] || s[0] == LF then 0 else 1 + LineEnd(s[1..])
  }

  function StripCr(line: seq<Byte>): seq<Byte> {
    if line != [] && line[|line| - 1] == CR then line[..|line| - 1] else line
  }

  function TakeLine(line: seq<Byte>): LineRead {
    if ValidUtf8(StripCr(line)) then Line(StripCr(line)) else BadUtf8
  }

  function FirstLine(s: seq<Byte>): LineRead {
    if s == [] then Eof
    else if LineEnd(s) > MAX_REQUEST_LINE then TooLong
    else TakeLine(s[..LineEnd(s)])
  }

  function AfterLine(s: seq<Byte>): seq<Byte> {
    if LineEnd(s) < |s| then s[LineEnd(s) + 1..] else []
  }

  /** Everything a connection reads off `s`, up to the answer that ends it. */
  function ReadAll(s: seq<Byte>): seq<LineRead>
    decreases |s|
  {
    var first := FirstLine(s);
    if first.Line? then [first] + ReadAll(AfterLine(s)) else [first]
  }

  lemma {:induction false} LineEndIsFirst(s: seq<Byte>, n: nat)
    requires n <= |s| && LF !in s[..n] && (n == |s| || s[n] == LF)
    ensures LineEnd(s) == n
  {
    if n > 0 {
      assert s[0] == s[..n][0];
      forall i | 0 <= i < n - 1 ensures s[1..][i] != LF {
        assert s[1..][i] == s[..n][i + 1];
      }
      LineEndIsFirst(s[1..], n - 1);
    }
  }

  /** A line that has not ended after `n` bytes ends at `n` or later. */
  lemma {:induction false} LineEndIsLater(s: seq<Byte>, n: nat)
    requires n <= |s| && LF !in s[..n]
    ensures LineEnd(s) >= n
  {
    if n > 0 {
      assert s[0] == s[..n][0];
      forall i | 0 <= i < n - 1 ensures s[1..][i] != LF {
        assert s[1..][i] == s[..n][i + 1];
      }
      LineEndIsLater(s[1..], n - 1);
    }
  }

  // ---- Lines as a client writes them ----

  /** One line: its text, and whether it ends in a carriage return and line feed or a line feed alone. */
  datatype Written = Written(text: Text, crlf: bool) {
    function Content(): seq<Byte> {
      if crlf then text + [CR] else text
    }

    predicate Fits() {
      && LF !in text
      && |Content()| <= MAX_REQUEST_LINE
      && (!crlf && text != [] ==> text[|text| - 1] != CR)
    }
  }

  function Wire(lines: seq<Written>): seq<Byte> {
    if lines == [] then [] else lines[0].Content() + [LF] + Wire(lines[1..])
  }

  function Texts(lines: seq<Written>): seq<LineRead> {
    if lines == [] then [] else [Line(lines[0].text)] + Texts(lines[1..])
  }

  lemma OneLineReadsBack(w: Written, tail: seq<Byte>)
    requires w.Fits()
    ensures FirstLine(w.Content() + [LF] + tail) == Line(w.text) && AfterLine(w.Content() + [LF] + tail) == tail
  {
    var s, n := w.Content() + [LF] + tail, |w.Content()|;
    assert s[..n] == w.Content() && s[n] == LF;
    LineEndIsFirst(s, n);
    assert StripCr(w.Content()) == w.text;
    assert s[n + 1..] == tail;
  }

  /** Written lines read back one for one, in order, and whatever follows them is read as if it stood alone. */
  lemma {:induction false} WrittenLinesReadBack(lines: seq<Written>, tail: seq<Byte>)
    requires forall w :: w in lines ==> w.Fits()
    ensures ReadAll(Wire(lines) + tail) == Texts(lines) + ReadAll(tail)
  {
    if lines == [] {
      assert Wire(lines) + tail == tail;
    } else {
      var rest := Wire(lines[1..]) + tail;
      assert Wire(lines) + tail == lines[0].Content() + [LF] + rest;
      OneLineReadsBack(lines[0], rest);
      WrittenLinesReadBack(lines[1..], tail);
      assert [Line(lines[0].text)] + (Texts(lines[1..]) + ReadAll(tail)) == Texts(lines) + ReadAll(tail);
    }
  }

  /** What ends a stream: nothing, an unterminated last line, or a line past the cap, whether it ends or not. */
  lemma HowStreamsEnd(last: seq<Byte>, after: seq<Byte>)
    requires LF !in last
    ensures last == [] ==> ReadAll(last) == [Eof]
    ensures 0 < |last| <= MAX_REQUEST_LINE && ValidUtf8(StripCr(last)) ==> ReadAll(last) == [Line(StripCr(last)), Eof]
    ensures 0 < |last| <= MAX_REQUEST_LINE && !ValidUtf8(StripCr(last)) ==> ReadAll(last) == [BadUtf8]
    ensures |last| > MAX_REQUEST_LINE ==> ReadAll(last + after) == [TooLong]
  {
    assert last[..|last|] == last;
    LineEndIsFirst(last, |last|);
    assert (last + after)[..|last|] == last;
    LineEndIsLater(last + after, |last|);
    assert ReadAll([]) == [Eof];
  }

  // ---- The reader ----

  function Concat(chunks: seq<seq<Byte>>): seq<Byte> {
    if chunks == [] then [] else chunks[0] + Concat(chunks[1..])
  }

  predicate NonEmpty(chunks: seq<seq<Byte>>) {
    forall i :: 0 <= i < |chunks| ==> |chunks[i]| > 0
  }

  /** The first line of a stream that ends before the line does. */
  lemma EndOfStream(buf: seq<Byte>)
    requires LF !in buf && |buf| <= MAX_REQUEST_LINE
    ensures FirstLine(buf) == (if buf == [] then Eof else TakeLine(buf)) && AfterLine(buf) == []
  {
    assert buf[..|buf|] == buf;
    LineEndIsFirst(buf, |buf|);
  }

  /** A line that is past the cap before it ends. */
  lemma PastCap(buf: seq<Byte>, available: seq<Byte>, behind: seq<Byte>)
    requires LF !in buf && LF !in available && |buf| + |available| > MAX_REQUEST_LINE
    ensures FirstLine(buf + (available + behind)) == TooLong
  {
    var s, n := buf + (available + behind), |buf| + |available|;
    assert s[..n] == buf + available;
    LineEndIsLater(s, n);
  }

  /** The first line of `buf`, a chunk that ends it at `pos`, and what is behind. */
  lemma EndFound(buf: seq<Byte>, available: seq<Byte>, behind: seq<Byte>, pos: nat)
    requires pos < |available| && available[pos] == LF && LF !in available[..pos] && LF !in buf
    ensures var s := buf + (available + behind);
            && FirstLine(s) == (if |buf| + pos > MAX_REQUEST_LINE then TooLong else TakeLine(buf + available[..pos]))
            && AfterLine(s) == available[pos + 1..] + behind
  {
    var s, n := buf + (available + behind), |buf| + pos;
    assert s[..n] == buf + available[..pos] && s[n] == LF;
    LineEndIsFirst(s, n);
    assert s[n + 1..] == available[pos + 1..] + behind;
  }

  /** The rest of a stream behind more bytes than a line may have. */
  predicate BehindCap(s: seq<Byte>, rest: seq<Byte>) {
    |rest| + MAX_REQUEST_LINE < |s| && s[|s| - |rest|..] == rest
  }

  lemma ChunkIsBehindCap(buf: seq<Byte>, available: seq<Byte>, n: nat, behind: seq<Byte>)
    requires n <= |available| && |buf| + n > MAX_REQUEST_LINE
    ensures BehindCap(buf + (available + behind), [] + (available[n..] + behind))
  {
  }

  class Reader {
    /** The line read so far; it outlives a dropped call. */
    var buf: seq<Byte>
    /** Chunks not consumed yet, the end of the stream behind them. */
    var incoming: seq<seq<Byte>>
    /** The stream as sent, and the answers given while the connection stood. */
    ghost var stream: seq<Byte>
    ghost var answers: seq<LineRead>

    ghost function Remaining(): seq<Byte>
      reads this
    {
      buf + Concat(incoming)
    }

    ghost predicate Open()
      reads this
    {
      forall a :: a in answers ==> a.Line?
    }

    /** The line in progress is within the cap; what was answered and what remains make up the whole stream. */
    ghost predicate Valid()
      reads this
    {
      && LF !in buf && |buf| <= MAX_REQUEST_LINE
      && NonEmpty(incoming)
      && (Open() ==> ReadAll(stream) == answers + ReadAll(Remaining()))
      && (!Open() ==> ReadAll(stream) == answers)
    }

    constructor (chunks: seq<seq<Byte>>)
      requires NonEmpty(chunks)
      ensures Valid() && stream == Concat(chunks) && Remaining() == stream && answers == [] && incoming == chunks
    {
      buf, incoming, stream, answers := [], chunks, Concat(chunks), [];
      new;
      NothingFirst(stream);
      NothingFirst(ReadAll(stream));
    }

    method FindLf(chunk: seq<Byte>) returns (pos: nat)
      ensures pos <= |chunk| && LF !in chunk[..pos] && (pos < |chunk| ==> chunk[pos] == LF)
    {
      pos := 0;
      while pos < |chunk| && chunk[pos] != LF
        invariant pos <= |chunk| && LF !in chunk[..pos]
      {
        assert chunk[..pos + 1] == chunk[..pos] + [chunk[pos]];
        pos := pos + 1;
      }
    }

    /**
     * One call, dropped at its `patience`-th read if it has no answer by then. A dropped call loses
     * nothing; any other call answers the first line of what remains, however it was cut into chunks.
     */
    method NextLine(patience: nat) returns (r: LineRead)
      requires LF !in buf && |buf| <= MAX_REQUEST_LINE
      requires NonEmpty(incoming)
      modifies this`buf, this`incoming
      ensures LF !in buf && |buf| <= MAX_REQUEST_LINE
      ensures NonEmpty(incoming)
      ensures r.Interrupted? ==> Remaining() == old(Remaining()) && patience <= |old(incoming)|
      ensures !r.Interrupted? ==> r == FirstLine(old(Remaining())) && buf == []
      ensures r.Line? || r.Eof? || r.BadUtf8? ==> Remaining() == AfterLine(old(Remaining()))
      ensures r.TooLong? ==> BehindCap(old(Remaining()), Remaining())
    {
      ghost var s := Remaining();
      var polls := 0;
      while true
        invariant LF !in buf && |buf| <= MAX_REQUEST_LINE && Remaining() == s
        invariant NonEmpty(incoming)
        invariant polls + |incoming| == |old(incoming)|
        decreases |incoming|
      {
        if polls == patience {
          return Interrupted;
        }
        polls := polls + 1;
        if incoming == [] {
          assert s == buf;
          EndOfStream(buf);
          if buf == [] {
            return Eof;
          }
          r := TakeLine(buf);
          buf := [];
          return;
        }
        var available := incoming[0];
        var pos := FindLf(available);
        if pos < |available| {
          ghost var behind := incoming[1..];
          EndFound(buf, available, Concat(behind), pos);
          Consume(pos + 1);
          if |buf| + pos > MAX_REQUEST_LINE {
            ChunkIsBehindCap(buf, available, pos + 1, Concat(behind));
            buf := [];
            return TooLong;
          }
          r := TakeLine(buf + available[..pos]);
          buf := [];
          return;
        }
        assert available[..pos] == available;
        if |buf| + |available| > MAX_REQUEST_LINE {
          PastCap(buf, available, Concat(incoming[1..]));
          ChunkIsBehindCap(buf, available, |available|, Concat(incoming[1..]));
          NothingFirst(Concat(incoming[1..]));
          buf := [];
          incoming := incoming[1..];
          return TooLong;
        }
        assert buf + (available + Concat(incoming[1..])) == (buf + available) + Concat(incoming[1..]);
        buf := buf + available;
        incoming := incoming[1..];
      }
    }

    /** Drop `n` bytes of the first chunk, and the chunk itself once it is used up. */
    method Consume(n: nat)
      requires incoming != [] && n <= |incoming[0]|
      requires NonEmpty(incoming)
      modifies this`incoming
      ensures Concat(incoming) == old(incoming[0][n..]) + Concat(old(incoming[1..]))
      ensures NonEmpty(incoming)
    {
      var chunk, behind := incoming[0][n..], incoming[1..];
      incoming := if chunk == [] then behind else [chunk] + behind;
      assert chunk != [] ==> incoming[1..] == behind;
      assert [] + Concat(behind) == Concat(behind);
    }

    /** The call as the connection makes it: the answers so far stay a prefix of what the whole stream reads as. */
    method Next(patience: nat) returns (r: LineRead)
      requires Valid() && Open()
      modifies this
      ensures Valid() && stream == old(stream)
      ensures answers == if r.Interrupted? then old(answers) else old(answers) + [r]
      ensures r.Interrupted? ==> patience <= |old(incoming)|
    {
      ghost var s := Remaining();
      r := NextLine(patience);
      if !r.Interrupted? {
        AnswerIsNext(answers, r, s);
        answers := answers + [r];
        assert r.Line? <==> Open() by {
          assert r in answers;
        }
      }
    }
  }

  lemma AnswerIsNext(answers: seq<LineRead>, r: LineRead, s: seq<Byte>)
    requires r == FirstLine(s)
    ensures answers + ReadAll(s) == if r.Line? then answers + [r] + ReadAll(AfterLine(s)) else answers + [r]
  {
    if r.Line? {
      assert answers + ([r] + ReadAll(AfterLine(s))) == answers + [r] + ReadAll(AfterLine(s));
    }
  }
}
