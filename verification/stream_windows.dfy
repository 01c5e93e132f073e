// Cutting a file into overlapping windows through one fixed buffer
// (cmd/c2scanner/main.go): what is written is what slicing the whole file
// would give, however the reads split it.

module StreamWindows {
  import opened Numbers
  import opened Wrappers
  import opened Bytes

  const WINDOW: nat := 96
  const BUFFER: nat := 65632
  const MAX_FILE: nat := 16777216
  const NEWLINE: byte := 10

  datatype Window = Window(line: nat, payload: seq<byte>)

  function Newlines(s: seq<byte>): nat {
    if s == [] then 0 else Newlines(s[..|s| - 1]) + if s[|s| - 1] == NEWLINE then 1 else 0
  }

  function LineFeeds(s: seq<byte>): set<nat> {
    set i | 0 <= i < |s| && s[i] as char == '\n'
  }

  // One for each place that holds a line feed.
  lemma {:induction false} NewlinesAre(s: seq<byte>)
    ensures Newlines(s) == |LineFeeds(s)|
  {
    if s != [] {
      NewlinesAre(s[..|s| - 1]);
      LastFeed(s);
      hide LineFeeds;
    }
  }

  lemma LastFeed(s: seq<byte>)
    requires s != []
    ensures LineFeeds(s) == LineFeeds(s[..|s| - 1]) + if s[|s| - 1] == NEWLINE then {|s| - 1} else {}
    ensures |s| - 1 !in LineFeeds(s[..|s| - 1])
  {
  }

  // The number of the line that the offset is on.
  function LineAt(content: seq<byte>, offset: nat): nat
    requires offset <= |content|
  {
    1 + Newlines(content[..offset])
  }

  // The window that starts at an offset of the file.
  function WindowFrom(content: seq<byte>, start: nat): Window
    requires start <= |content|
  {
    Window(LineAt(content, start), ZeroPadded(content[start..Min(start + WINDOW, |content|)], WINDOW))
  }

  // A window says the line it starts on, counted from 1.
  lemma LineOfWindow(content: seq<byte>, start: nat)
    requires start <= |content|
    ensures WindowFrom(content, start).line == 1 + |LineFeeds(content[..start])|
  {
    NewlinesAre(content[..start]);
  }

  function Start(k: nat, stride: nat): nat { k * stride }

  // Where the last full window of a full buffer may start at the latest.
  const LAST_FULL: nat := BUFFER - WINDOW

  // The full windows of a full buffer, and how far they shift it.
  function PerBuffer(stride: nat): nat
    requires stride > 0
  {
    LAST_FULL / stride + 1
  }

  function Shifted(stride: nat): (n: nat)
    requires stride > 0
    ensures LAST_FULL < n <= LAST_FULL + stride && n >= stride
  {
    QuotientUnique(LAST_FULL, stride, LAST_FULL / stride);
    MulNext(LAST_FULL / stride, stride);
    Start(PerBuffer(stride), stride)
  }

  // The last full window of a full buffer ends exactly where the file does.
  predicate Superfluous(size: nat, stride: nat)
    requires stride > 0
  {
    && stride < WINDOW && LAST_FULL % stride == 0
    && size >= BUFFER && (size - BUFFER) % Shifted(stride) == 0
  }

  // ws are the first windows of the file, one every stride bytes.
  predicate SlicesOf(content: seq<byte>, stride: nat, ws: seq<Window>) {
    forall k :: 0 <= k < |ws| ==>
      Start(k, stride) < |content| && ws[k] == WindowFrom(content, Start(k, stride))
  }

  lemma NextStart(k: nat, stride: nat)
    ensures Start(0, stride) == 0
    ensures Start(k + 1, stride) == Start(k, stride) + stride
    ensures k > 0 ==> Start(k, stride) == Start(k - 1, stride) + stride
  {
  }

  // A window to the end covers every byte before it.
  lemma {:induction false} EveryByteIsInAWindow(stride: nat, n: nat, b: nat)
    requires 0 < stride <= WINDOW && n > 0 && b < Start(n - 1, stride) + WINDOW
    ensures exists k :: 0 <= k < n && Start(k, stride) <= b < Start(k, stride) + WINDOW
  {
    if b < Start(n - 1, stride) {
      NextStart(n - 1, stride);
      EveryByteIsInAWindow(stride, n - 1, b);
    } else {
      assert Start(n - 1, stride) <= b;
    }
  }

  // How the file delivers its next read: up to chunk + 1 bytes, with the end
  // announced at once or not, or a failure.
  datatype Step = Step(chunk: nat, eofWithData: bool, fails: bool)

  datatype ReadError = NoError | Eof | Broken

  class FileReader {
    const content: seq<byte>
    const plan: nat -> Step
    var pos: nat
    var calls: nat

    // Its end is announced by a read of its own, as a regular file does.
    ghost predicate Quiet() { forall i :: !plan(i).eofWithData }

    // No read of it fails.
    ghost predicate Sound() { forall i :: !plan(i).fails }

    constructor (content: seq<byte>, plan: nat -> Step)
      ensures this.content == content && this.plan == plan && pos == 0
    {
      this.content, this.plan, pos, calls := content, plan, 0, 0;
    }

    method Read(buf: array<byte>, at: nat, len: nat) returns (n: nat, err: ReadError)
      requires pos <= |content| && len > 0 && at + len <= buf.Length
      modifies this, buf
      ensures n <= len && pos == old(pos) + n <= |content|
      ensures buf[..] == old(buf[..])[..at] + content[old(pos)..pos] + old(buf[..])[at + n..]
      ensures err == Eof ==> pos == |content|
      ensures err == NoError ==> n > 0
      ensures err == Eof && Quiet() ==> n == 0
      ensures err == Broken <==> plan(old(calls)).fails
      ensures calls == old(calls) + 1
      ensures n == Min(Min(len, plan(old(calls)).chunk + 1), |content| - old(pos))
    {
      var step := plan(calls);
      calls := calls + 1;
      n := Min(Min(len, step.chunk + 1), |content| - pos);
      forall i | 0 <= i < n {
        buf[at + i] := content[pos + i];
      }
      pos := pos + n;
      err := if step.fails then Broken
        else if n == 0 || (step.eofWithData && pos == |content|) then Eof
        else NoError;
    }
  }

  // The windows written since before are the first ones of the file.
  ghost predicate Extends(before: seq<Window>, ws: seq<Window>, content: seq<byte>, stride: nat) {
    |ws| >= |before| && ws[..|before|] == before && SlicesOf(content, stride, ws[|before|..])
  }

  function Added(before: seq<Window>, ws: seq<Window>): nat {
    if |ws| >= |before| then |ws| - |before| else 0
  }

  datatype ScanError = TooLarge | ReadFailed

  datatype Outcome = Refused | Scanned | Truncated(error: ScanError)

  // The buffer holds the file from base up to base + validLen.
  ghost predicate Holds(buf: seq<byte>, content: seq<byte>, base: nat, validLen: nat) {
    validLen <= |buf| && base + validLen <= |content| && buf[..validLen] == content[base..base + validLen]
  }

  class Worker {
    const stride: int
    const streamBuf: array<byte>
    var windows: seq<Window>
    var bytes: nat
    var files: nat
    var scanErr: Option<ScanError>

    constructor (stride: int)
      ensures this.stride == stride && streamBuf.Length == BUFFER && fresh(streamBuf)
      ensures windows == [] && bytes == 0 && files == 0 && scanErr == None
    {
      this.stride := stride;
      streamBuf := new byte[BUFFER](_ => 0);
      windows, bytes, files, scanErr := [], 0, 0, None;
    }

    function Pas(): (pas: nat)
      ensures 0 < pas <= WINDOW
      ensures 0 < stride <= WINDOW ==> pas == stride
    {
      if stride <= 0 || stride > WINDOW then WINDOW else stride
    }

    // The first error is the one kept.
    method RecordError(e: ScanError)
      modifies this`scanErr
      ensures scanErr == if old(scanErr).None? then Some(e) else old(scanErr)
    {
      if scanErr.None? {
        scanErr := Some(e);
      }
    }

    // Reads until the buffer is full or the file ends.
    method Fill(reader: FileReader, ghost base: nat, validLen0: nat, totalRead0: nat)
      returns (validLen: nat, totalRead: nat, eof: bool, err: Option<ScanError>)
      requires streamBuf.Length == BUFFER && totalRead0 == reader.pos == base + validLen0 <= MAX_FILE
      requires Holds(streamBuf[..], reader.content, base, validLen0)
      modifies reader, streamBuf
      ensures totalRead == base + validLen <= MAX_FILE
      ensures validLen0 <= validLen && Holds(streamBuf[..], reader.content, base, validLen)
      ensures err.None? ==> reader.pos == totalRead
      ensures err.None? && eof ==> totalRead == |reader.content|
      ensures err.None? && !eof ==> validLen == BUFFER
      ensures err.None? && eof && reader.Quiet() ==> validLen < BUFFER
      ensures err == Some(TooLarge) ==> |reader.content| > MAX_FILE && totalRead == MAX_FILE
      ensures err == Some(ReadFailed) ==> !reader.Sound()
    {
      validLen, totalRead, eof, err := validLen0, totalRead0, false, None;
      while validLen < streamBuf.Length
        invariant totalRead == reader.pos == base + validLen <= MAX_FILE
        invariant validLen0 <= validLen && Holds(streamBuf[..], reader.content, base, validLen)
        decreases BUFFER - validLen
      {
        if totalRead >= MAX_FILE {
          var extraByte := new byte[1];
          var extraN, extraErr := reader.Read(extraByte, 0, 1);
          if extraN > 0 {
            err := Some(TooLarge);
            return;
          }
          if extraErr == Broken {
            err := Some(ReadFailed);
            return;
          }
          eof := true;
          return;
        }
        var toRead := Min(streamBuf.Length - validLen, MAX_FILE - totalRead);
        ghost var was := streamBuf[..];
        var n, rerr := reader.Read(streamBuf, validLen, toRead);
        HoldsMore(was, streamBuf[..], reader.content, base, validLen, n);
        validLen, totalRead := validLen + n, totalRead + n;
        if rerr == Eof {
          eof := true;
          return;
        }
        if rerr == Broken {
          err := Some(ReadFailed);
          return;
        }
      }
    }

    method CountLines(from: nat, to: nat, line0: nat, ghost content: seq<byte>, ghost base: nat, ghost validLen: nat)
      returns (line: nat)
      requires from <= to <= validLen && Holds(streamBuf[..], content, base, validLen)
      requires line0 == LineAt(content, base + from)
      ensures line == LineAt(content, base + to)
    {
      line := line0;
      for i := from to to
        invariant line == LineAt(content, base + i)
      {
        HeldByte(streamBuf[..], content, base, validLen, i);
        assert content[..base + i + 1] == content[..base + i] + [content[base + i]];
        if streamBuf[i] == NEWLINE {
          line := line + 1;
        }
      }
    }

    // Writes the window at cursor, zero-padded when the file ends in it.
    method Write(cursor: nat, winLen: nat, line: nat, ghost content: seq<byte>, ghost base: nat, ghost validLen: nat,
                 ghost before: seq<Window>)
      requires cursor + winLen <= validLen && Holds(streamBuf[..], content, base, validLen)
      requires 0 < winLen <= WINDOW && base + cursor + winLen == Min(base + cursor + WINDOW, |content|)
      requires line == LineAt(content, base + cursor)
      requires Extends(before, windows, content, Pas()) && base + cursor == Start(Added(before, windows), Pas())
      modifies this`windows
      ensures Extends(before, windows, content, Pas()) && Added(before, windows) == Added(before, old(windows)) + 1
    {
      hide SlicesOf, ZeroPadded;
      var w := Window(line, ZeroPadded(streamBuf[cursor..cursor + winLen], WINDOW));
      HeldSlice(streamBuf[..], content, base, validLen, cursor, winLen);
      OneMoreWindow(content, Pas(), windows[|before|..], w);
      assert (windows + [w])[|before|..] == windows[|before|..] + [w];
      windows := windows + [w];
    }

    // The full windows of the buffer.
    method WriteFull(validLen: nat, eof: bool, line0: nat,
                     ghost content: seq<byte>, ghost base: nat, ghost before: seq<Window>)
      returns (cursor: nat, lastLineProcessed: nat, line: nat, done: bool)
      requires streamBuf.Length == BUFFER && Holds(streamBuf[..], content, base, validLen)
      requires line0 == LineAt(content, base)
      requires Extends(before, windows, content, Pas()) && base == Start(Added(before, windows), Pas())
      modifies this`windows
      ensures Extends(before, windows, content, Pas()) && Added(before, windows) >= Added(before, old(windows))
      ensures done ==> eof && Added(before, windows) > 0 && validLen >= WINDOW
      ensures done ==> Start(Added(before, windows) - 1, Pas()) + WINDOW == base + validLen
      ensures !done ==>
        && lastLineProcessed <= cursor <= validLen < cursor + WINDOW
        && line == LineAt(content, base + lastLineProcessed)
        && base + cursor == Start(Added(before, windows), Pas())
      ensures !done && cursor > 0 ==>
        && Added(before, windows) > 0
        && cursor - Pas() + WINDOW <= validLen
        && (eof ==> cursor - Pas() + WINDOW < validLen)
      ensures !done && cursor == 0 ==> windows == old(windows)
      ensures !done ==> cursor == Start(Added(before, windows) - Added(before, old(windows)), Pas())
    {
      hide SlicesOf, Holds, LineAt, Start, Extends;
      HoldsInRange(streamBuf[..], content, base, validLen);
      cursor, lastLineProcessed, line, done := 0, 0, line0, false;
      var pas := Pas();
      ghost var first := Added(before, windows);
      NextStart(0, pas);
      while cursor + WINDOW <= validLen
        invariant lastLineProcessed <= cursor <= validLen
        invariant line == LineAt(content, base + lastLineProcessed)
        invariant Extends(before, windows, content, pas) && Added(before, windows) >= Added(before, old(windows))
        invariant base + cursor == Start(Added(before, windows), pas)
        invariant cursor > 0 ==> Added(before, windows) > 0 && cursor - pas + WINDOW <= validLen
        invariant cursor > 0 && eof ==> cursor - pas + WINDOW < validLen
        invariant cursor == 0 ==> windows == old(windows)
        invariant cursor == Start(Added(before, windows) - first, pas)
      {
        line := CountLines(lastLineProcessed, cursor, line, content, base, validLen);
        lastLineProcessed := cursor;
        Write(cursor, WINDOW, line, content, base, validLen, before);
        NextStart(Added(before, windows) - 1, pas);
        NextStart(Added(before, windows) - first - 1, pas);
        if cursor + WINDOW == validLen && eof {
          done := true;
          return;
        }
        cursor := cursor + pas;
      }
    }

    // The last window, when the file ends inside it.
    method WriteTail(cursor: nat, lastLineProcessed: nat, line0: nat, validLen: nat,
                     ghost content: seq<byte>, ghost base: nat, ghost before: seq<Window>)
      requires Holds(streamBuf[..], content, base, validLen) && base + validLen == |content|
      requires lastLineProcessed <= cursor <= validLen < cursor + WINDOW
      requires line0 == LineAt(content, base + lastLineProcessed)
      requires Extends(before, windows, content, Pas()) && base + cursor == Start(Added(before, windows), Pas())
      modifies this`windows
      ensures Extends(before, windows, content, Pas())
      ensures Added(before, windows) == Added(before, old(windows)) + if cursor < validLen then 1 else 0
    {
      hide SlicesOf, Holds, LineAt, Start, Extends;
      if cursor < validLen {
        var line := CountLines(lastLineProcessed, cursor, line0, content, base, validLen);
        Write(cursor, validLen - cursor, line, content, base, validLen, before);
      }
    }

    // What is left of the buffer moves to its front.
    method Shift(cursor: nat, validLen: nat, ghost content: seq<byte>, ghost base: nat) returns (rem: nat)
      requires cursor <= validLen && Holds(streamBuf[..], content, base, validLen)
      modifies streamBuf
      ensures rem == validLen - cursor && Holds(streamBuf[..], content, base + cursor, rem)
    {
      rem := validLen - cursor;
      ghost var was := streamBuf[..];
      forall i | 0 <= i < rem {
        streamBuf[i] := streamBuf[cursor + i];
      }
      assert streamBuf[..rem] == was[..validLen][cursor..];
    }

    // A buffer that is full without the end being known: its full windows are
    // written, and the rest moves to the front.
    method WriteRound(line0: nat, ghost content: seq<byte>, ghost base: nat, ghost before: seq<Window>)
      returns (rem: nat, line: nat)
      requires streamBuf.Length == BUFFER && Holds(streamBuf[..], content, base, BUFFER)
      requires line0 == LineAt(content, base)
      requires Extends(before, windows, content, Pas()) && base == Start(Added(before, windows), Pas())
      modifies this`windows, streamBuf
      ensures Extends(before, windows, content, Pas()) && Added(before, windows) > 0
      ensures rem + Shifted(Pas()) == BUFFER && base + BUFFER <= |content|
      ensures base + Shifted(Pas()) == Start(Added(before, windows), Pas())
      ensures Holds(streamBuf[..], content, base + Shifted(Pas()), rem)
      ensures line == LineAt(content, base + Shifted(Pas()))
    {
      hide SlicesOf, LineAt, Start, Holds, Extends, Added, Shifted;
      HoldsInRange(streamBuf[..], content, base, BUFFER);
      ghost var n := Added(before, windows);
      var cursor, lastLineProcessed, done;
      cursor, lastLineProcessed, line, done := WriteFull(BUFFER, false, line0, content, base, before);
      FullRound(Pas(), Added(before, windows) - n, cursor);
      line := CountLines(lastLineProcessed, cursor, line, content, base, BUFFER);
      rem := Shift(cursor, BUFFER, content, base);
    }

    // What is written once the end of the file is in the buffer, after some
    // rounds of full buffers.
    method WriteRest(validLen: nat, line0: nat, ghost content: seq<byte>, ghost base: nat, ghost before: seq<Window>,
                     ghost rounds: nat, ghost quiet: bool)
      requires streamBuf.Length == BUFFER
      requires Holds(streamBuf[..], content, base, validLen) && base + validLen == |content|
      requires line0 == LineAt(content, base)
      requires Extends(before, windows, content, Pas()) && base == Start(Added(before, windows), Pas())
      requires base == Start(rounds, Shifted(Pas())) && (Added(before, windows) == 0 <==> rounds == 0)
      requires rounds > 0 ==> validLen + Shifted(Pas()) >= BUFFER
      requires quiet ==> validLen < BUFFER
      modifies this`windows
      ensures Extends(before, windows, content, Pas())
      ensures EachByteWritten(content, Pas(), Added(before, windows), quiet)
    {
      hide SlicesOf, LineAt, Start, Holds, Extends, Added, EachByteWritten, Superfluous;
      var pas := Pas();
      NextStart(Added(before, windows), pas);
      NextStart(rounds, Shifted(pas));
      SuperfluousIff(|content|, pas, rounds, base, validLen);
      if validLen == 0 {
        Covered(content, pas, Added(before, windows), quiet);
        return;
      }
      var cursor, lastLineProcessed, line, done := WriteFull(validLen, true, line0, content, base, before);
      NextStart(Added(before, windows), pas);
      if !done {
        WriteTail(cursor, lastLineProcessed, line, validLen, content, base, before);
      }
      Covered(content, pas, Added(before, windows), quiet);
    }

    method ScanFile(statSize: nat, reader: FileReader) returns (ghost outcome: Outcome)
      requires streamBuf.Length == BUFFER && reader.pos == 0
      modifies this, streamBuf, reader
      ensures Extends(old(windows), windows, reader.content, Pas())
      ensures outcome.Refused? <==> statSize > MAX_FILE
      ensures outcome.Refused? ==> windows == old(windows) && bytes == old(bytes) && files == old(files)
      ensures !outcome.Refused? ==> files == old(files) + 1 && bytes <= old(bytes) + MAX_FILE
      ensures outcome.Scanned? ==>
        EachByteWritten(reader.content, Pas(), Added(old(windows), windows), reader.Quiet())
      ensures outcome.Scanned? ==> bytes == old(bytes) + |reader.content| && |reader.content| <= MAX_FILE
      ensures outcome == Truncated(TooLarge) ==> |reader.content| > MAX_FILE
      ensures outcome == Truncated(ReadFailed) ==> !reader.Sound()
      ensures scanErr ==
        if old(scanErr).Some? || outcome.Scanned? then old(scanErr)
        else Some(if outcome.Refused? then TooLarge else outcome.error)
    {
      hide SlicesOf, LineAt, Start, Holds, Extends, Added, EachByteWritten;
      NothingYet(streamBuf[..], reader.content, Pas(), windows);
      if statSize > MAX_FILE {
        RecordError(TooLarge);
        return Refused;
      }
      files := files + 1;
      var totalRead, err := Stream(reader);
      bytes := bytes + totalRead;
      if err.Some? {
        RecordError(err.value);
        return Truncated(err.value);
      }
      return Scanned;
    }

    // The loop of scanFile: fill, write the full windows, shift, again.
    method Stream(reader: FileReader) returns (totalRead: nat, err: Option<ScanError>)
      requires streamBuf.Length == BUFFER && reader.pos == 0
      modifies this`windows, streamBuf, reader
      ensures Extends(old(windows), windows, reader.content, Pas()) && totalRead <= MAX_FILE
      ensures err.None? ==>
        && EachByteWritten(reader.content, Pas(), Added(old(windows), windows), reader.Quiet())
        && totalRead == |reader.content|
      ensures err == Some(TooLarge) ==> |reader.content| > MAX_FILE
      ensures err == Some(ReadFailed) ==> !reader.Sound()
    {
      ghost var content, before := reader.content, windows;
      ghost var base, n, rounds := 0, 0, 0;
      var pas := Pas();
      ghost var shifted := Shifted(pas);
      var validLen: nat, line: nat := 0, 1;
      totalRead := 0;
      hide SlicesOf, LineAt, Start, Holds, Extends, Added, EachByteWritten, Shifted;
      NothingYet(streamBuf[..], content, pas, windows);
      NextStart(0, shifted);
      while true
        invariant totalRead == reader.pos == base + validLen <= MAX_FILE
        invariant Holds(streamBuf[..], content, base, validLen) && base + validLen <= |content|
        invariant line == LineAt(content, base)
        invariant Extends(before, windows, content, pas) && n == Added(before, windows)
        invariant base == Start(n, pas) == Start(rounds, shifted)
        invariant n == 0 <==> rounds == 0
        invariant rounds > 0 ==> validLen + shifted == BUFFER
        decreases |content| - base
      {
        var eof;
        validLen, totalRead, eof, err := Fill(reader, base, validLen, totalRead);
        if err.Some? {
          return;
        }
        HoldsInRange(streamBuf[..], content, base, validLen);
        if eof {
          WriteRest(validLen, line, content, base, before, rounds, reader.Quiet());
          return;
        }
        validLen, line := WriteRound(line, content, base, before);
        NextStart(rounds, shifted);
        n, rounds, base := Added(before, windows), rounds + 1, base + shifted;
      }
    }
  }

  // A full buffer shifts by the same amount in every round.
  lemma FullRound(stride: nat, count: nat, cursor: nat)
    requires 0 < stride <= WINDOW && cursor == Start(count, stride)
    requires cursor <= BUFFER < cursor + WINDOW && (cursor > 0 ==> cursor - stride + WINDOW <= BUFFER)
    ensures cursor == Shifted(stride) && count > 0
  {
    NextStart(count, stride);
    QuotientUnique(LAST_FULL, stride, count - 1);
  }

  // What is left after some rounds is one overlap, no more and no less,
  // exactly on the files whose last window is superfluous.
  lemma SuperfluousIff(size: nat, stride: nat, rounds: nat, base: nat, rest: nat)
    requires 0 < stride <= WINDOW && base == Start(rounds, Shifted(stride)) && size == base + rest
    requires rounds > 0 ==> rest + Shifted(stride) >= BUFFER
    ensures rounds > 0 && rest + stride == WINDOW && rest > 0 ==> Superfluous(size, stride)
    ensures rest < BUFFER && Superfluous(size, stride) ==> rounds > 0 && rest + stride == WINDOW && rest > 0
  {
    var shifted, q := Shifted(stride), LAST_FULL / stride;
    assert shifted == Start(q + 1, stride);
    NextStart(q, stride);
    QuotientUnique(LAST_FULL, stride, q);
    MulNext(q, stride);
    assert LAST_FULL % stride == LAST_FULL - Start(q, stride);
    hide Shifted;
    if rounds > 0 {
      NextStart(rounds, shifted);
      assert size >= BUFFER ==> size - BUFFER == Start(rounds - 1, shifted) + (rest + shifted - BUFFER);
      Multiple(rounds - 1, shifted, rest + shifted - BUFFER);
    }
  }

  lemma Multiple(k: nat, d: nat, r: nat)
    requires d > 0
    ensures r < d ==> (Start(k, d) + r) % d == r
  {
    if r < d {
      QuotientUnique(Start(k, d) + r, d, k);
      MulNext(k, d);
    }
  }

  // n windows reach the end of the file and no window starts past it. At most
  // one is superfluous, which only some sizes allow; and when the file
  // announces its end by a read of its own, exactly those have one.
  ghost predicate EachByteWritten(content: seq<byte>, stride: nat, n: nat, quiet: bool)
    requires stride > 0
  {
    && (n == 0 <==> content == [])
    && (n > 0 ==> |content| <= Start(n - 1, stride) + WINDOW)
    && (n > 1 ==> Start(n - 2, stride) + WINDOW <= |content|)
    && (n > 1 && Start(n - 2, stride) + WINDOW == |content| ==> Superfluous(|content|, stride))
    && (quiet && Superfluous(|content|, stride) ==> n > 1 && Start(n - 2, stride) + WINDOW == |content|)
  }

  // The fewest windows that reach the end, and the number a scan writes.
  function FewestWindows(size: nat, stride: nat): nat
    requires stride > 0
  {
    if size == 0 then 0 else if size <= WINDOW then 1 else (size - WINDOW - 1) / stride + 2
  }

  lemma ExactCount(content: seq<byte>, stride: nat, n: nat, quiet: bool)
    requires 0 < stride <= WINDOW && EachByteWritten(content, stride, n, quiet)
    ensures n == FewestWindows(|content|, stride)
      || (n == FewestWindows(|content|, stride) + 1 && Superfluous(|content|, stride))
    ensures quiet ==>
      n == FewestWindows(|content|, stride) + if Superfluous(|content|, stride) then 1 else 0
  {
    var size := |content|;
    hide Superfluous;
    NextStart(n, stride);
    if n > 1 {
      NextStart(n - 1, stride);
      NextStart(n - 2, stride);
      if size > WINDOW {
        QuotientUnique(size - WINDOW - 1, stride, n - 2);
        QuotientUnique(size - WINDOW - 1, stride, n - 3);
        MulNext(n - 3, stride);
      }
    }
  }

  // A file of one full buffer, cut every 64 bytes, gets one window too many;
  // cut every 50 bytes, or one byte longer, it does not.
  lemma OneTooMany()
    ensures Superfluous(BUFFER, 64) && FewestWindows(BUFFER, 64) == 1025
    ensures !Superfluous(BUFFER, 50) && !Superfluous(BUFFER + 1, 64)
  {
    assert Shifted(64) == 65600;
  }

  // Every byte of a scanned file is in a window that holds it.
  lemma ByteIsHeld(content: seq<byte>, stride: nat, ws: seq<Window>, b: nat, quiet: bool)
    requires 0 < stride <= WINDOW && SlicesOf(content, stride, ws) && b < |content|
    requires EachByteWritten(content, stride, |ws|, quiet)
    ensures exists k :: 0 <= k < |ws| && Start(k, stride) <= b < Start(k, stride) + WINDOW
              && ws[k].payload[b - Start(k, stride)] == content[b]
  {
    hide Superfluous;
    EveryByteIsInAWindow(stride, |ws|, b);
    hide Start;
  }

  lemma Covered(content: seq<byte>, stride: nat, n: nat, quiet: bool)
    requires 0 < stride <= WINDOW && (n == 0 <==> content == [])
    requires n > 0 ==> |content| <= Start(n - 1, stride) + WINDOW
    requires n > 1 ==> Start(n - 1, stride) - stride + WINDOW <= |content|
    requires n > 1 && Start(n - 1, stride) - stride + WINDOW == |content| ==> Superfluous(|content|, stride)
    requires quiet && Superfluous(|content|, stride) ==> n > 1 && Start(n - 1, stride) - stride + WINDOW == |content|
    ensures EachByteWritten(content, stride, n, quiet)
  {
    hide Start, Superfluous;
    NextStart(n, stride);
    if n > 0 {
      NextStart(n - 1, stride);
    }
  }

  lemma NothingYet(buf: seq<byte>, content: seq<byte>, stride: nat, ws: seq<Window>)
    ensures Holds(buf, content, 0, 0) && LineAt(content, 0) == 1 && Start(0, stride) == 0
    ensures Extends(ws, ws, content, stride) && Added(ws, ws) == 0
  {
  }

  lemma HoldsInRange(buf: seq<byte>, content: seq<byte>, base: nat, validLen: nat)
    requires Holds(buf, content, base, validLen)
    ensures validLen <= |buf| && base + validLen <= |content|
  {
  }

  lemma HoldsMore(was: seq<byte>, buf: seq<byte>, content: seq<byte>, base: nat, validLen: nat, n: nat)
    requires Holds(was, content, base, validLen)
    requires |was| == |buf| && validLen + n <= |buf| && base + validLen + n <= |content|
    requires buf == was[..validLen] + content[base + validLen..base + validLen + n] + was[validLen + n..]
    ensures Holds(buf, content, base, validLen + n)
  {
    assert buf[..validLen + n] == content[base..base + validLen] + content[base + validLen..base + validLen + n];
  }

  lemma HeldByte(buf: seq<byte>, content: seq<byte>, base: nat, validLen: nat, i: nat)
    requires Holds(buf, content, base, validLen) && i < validLen
    ensures buf[i] == content[base + i]
  {
    assert buf[..validLen][i] == content[base..base + validLen][i];
  }

  lemma HeldSlice(buf: seq<byte>, content: seq<byte>, base: nat, validLen: nat, i: nat, n: nat)
    requires Holds(buf, content, base, validLen) && i + n <= validLen
    ensures buf[i..i + n] == content[base + i..base + i + n]
  {
    var held, sliced := buf[i..i + n], content[base + i..base + i + n];
    forall k | 0 <= k < n
      ensures held[k] == sliced[k]
    {
      HeldByte(buf, content, base, validLen, i + k);
    }
  }

  lemma OneMoreWindow(content: seq<byte>, stride: nat, ws: seq<Window>, w: Window)
    requires SlicesOf(content, stride, ws) && Start(|ws|, stride) < |content|
    requires w == WindowFrom(content, Start(|ws|, stride))
    ensures SlicesOf(content, stride, ws + [w])
  {
  }
}
