/** HessianServlet.LogWriter: a Writer that collects characters into a
    buffer and sends each completed line to the servlet's logger.  The
    logger is modelled as the sequence of lines it has been given. */
module LogWriting {
  import opened Wire

  /** ArrayIndexOutOfBoundsException of an index outside the character array. */
  const ArrayIndexOutOfBounds: Exception := Raised(RuntimeError, 8)

  /** The writer's state: the pending buffer and the lines logged so far. */
  datatype LogState = LogState(buffer: string, lines: seq<string>)

  const Fresh := LogState([], [])

  /** What writing one character does: a newline with a non-empty buffer logs
      the buffer as a line and clears it; any other character, and a newline
      on an empty buffer, is appended to the buffer. */
  function Step(s: LogState, ch: char): LogState
  {
    if ch == '\n' && |s.buffer| > 0 then LogState([], s.lines + [s.buffer])
    else LogState(s.buffer + [ch], s.lines)
  }

  /** Writing the characters `cs` one at a time, in order. */
  function Feed(s: LogState, cs: string): LogState
  {
    if cs == [] then s else Step(Feed(s, cs[..|cs| - 1]), cs[|cs| - 1])
  }

  /** How many iterations of write(char[], int, int) complete before an index
      falls outside the array: all `length` of them, or up to the first bad one. */
  function Processed(size: nat, offset: int, length: int): (n: nat)
    ensures n > 0 ==> 0 <= offset && offset + n <= size
    ensures n <= length || n == 0
    ensures n < length ==> !(0 <= offset + n < size)
  {
    if length <= 0 || offset < 0 || offset >= size then 0
    else if length < size - offset then length
    else size - offset
  }

  /** The characters write(char[], int, int) processes: `n` of them from `offset`. */
  function Window(a: seq<char>, offset: int, n: nat): string
    requires n == 0 || (0 <= offset && offset + n <= |a|)
  {
    if n == 0 then [] else a[offset..offset + n]
  }

  class LogWriter {
    var sb: string
    var lines: seq<string>

    constructor ()
      ensures sb == [] && lines == []
    {
      sb := [];
      lines := [];
    }

    function State(): LogState
      reads this
    {
      LogState(sb, lines)
    }

    /** write(char) */
    method WriteChar(ch: char)
      modifies this
      ensures State() == Step(old(State()), ch)
    {
      if ch == '\n' && |sb| > 0 {
        lines := lines + [sb];
        sb := [];
      } else {
        sb := sb + [ch];
      }
    }

    /** write(char[], int, int): the characters from `offset` on, one at a
        time as write(char) would; an index outside the array throws after
        the characters before it have been written. */
    method WriteChars(buffer: array<char>, offset: int, length: int) returns (e: Option<Exception>)
      modifies this
      ensures var n := Processed(buffer.Length, offset, length);
              State() == Feed(old(State()), Window(buffer[..], offset, n))
              && e == if n < length then Some(ArrayIndexOutOfBounds) else None
    {
      ghost var s0 := State();
      ghost var n := Processed(buffer.Length, offset, length);
      var i := 0;
      while i < length
        invariant 0 <= i <= n
        invariant State() == Feed(s0, Window(buffer[..], offset, i))
      {
        if offset + i < 0 || offset + i >= buffer.Length {
          return Some(ArrayIndexOutOfBounds);
        }
        var ch := buffer[offset + i];
        ghost var w := Window(buffer[..], offset, i + 1);
        assert w[..i] == Window(buffer[..], offset, i) && w[i] == ch;
        assert Feed(s0, w) == Step(State(), ch);
        if ch == '\n' && |sb| > 0 {
          lines := lines + [sb];
          sb := [];
        } else {
          sb := sb + [ch];
        }
        i := i + 1;
      }
      return None;
    }

    /** flush: nothing is buffered below the writer. */
    method Flush()
      ensures State() == old(State())
    {
    }

    /** close: the logger stays usable and the buffer is kept. */
    method Close()
      ensures State() == old(State())
    {
    }
  }

  // ---------------------------------------------------------------------------
  // Properties

  lemma {:induction false} FeedAppend(s: LogState, a: string, b: string)
    ensures Feed(s, a + b) == Feed(Feed(s, a), b)
    decreases |b|
  {
    if b == [] {
      assert a + b == a;
    } else {
      var b0 := b[..|b| - 1];
      FeedAppend(s, a, b0);
      assert (a + b)[..|a + b| - 1] == a + b0;
    }
  }

  /** Every logged line is non-empty. */
  predicate LinesNonEmpty(s: LogState)
  {
    forall i :: 0 <= i < |s.lines| ==> |s.lines[i]| > 0
  }

  lemma {:induction false} FeedKeepsLinesNonEmpty(s: LogState, cs: string)
    requires LinesNonEmpty(s)
    ensures LinesNonEmpty(Feed(s, cs))
    decreases |cs|
  {
    if cs != [] {
      FeedKeepsLinesNonEmpty(s, cs[..|cs| - 1]);
    }
  }

  /** The text a state stands for: each logged line followed by a newline,
      then the pending buffer. */
  function Text(s: LogState): string
  {
    Lines(s.lines) + s.buffer
  }

  function Lines(ls: seq<string>): string
  {
    if ls == [] then [] else Lines(ls[..|ls| - 1]) + ls[|ls| - 1] + "\n"
  }

  /** Nothing written is lost or reordered: the text of the state is the text
      before followed by the characters written. */
  lemma StepText(s: LogState, ch: char)
    ensures Text(Step(s, ch)) == Text(s) + [ch]
  {
    if ch == '\n' && |s.buffer| > 0 {
      var ls := s.lines + [s.buffer];
      assert ls[..|ls| - 1] == s.lines;
      assert Text(Step(s, ch)) == Lines(s.lines) + s.buffer + "\n" + [];
    }
  }

  lemma {:induction false} FeedText(s: LogState, cs: string)
    ensures Text(Feed(s, cs)) == Text(s) + cs
    decreases |cs|
  {
    if cs == [] {
      assert Text(s) + cs == Text(s);
    } else {
      var init := cs[..|cs| - 1];
      FeedText(s, init);
      StepText(Feed(s, init), cs[|cs| - 1]);
      assert init + [cs[|cs| - 1]] == cs;
    }
  }

  /** A newline on an empty buffer is buffered, not logged: after "a\n\n" the
      line "a" has been logged and the buffer holds the second newline. */
  lemma NewlineOnEmptyBufferIsKept()
    ensures Feed(Fresh, "a\n\n") == LogState("\n", ["a"])
    ensures Feed(Fresh, "\n") == LogState("\n", [])
  {
    assert "a\n\n"[..2] == "a\n";
    assert "a\n"[..1] == "a";
    assert "a"[..0] == [];
    assert "\n"[..0] == [];
    assert Feed(Fresh, "a") == LogState("a", []);
    assert Feed(Fresh, "a\n") == LogState([], ["a"]);
  }
}
