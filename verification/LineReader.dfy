/** Reading request lines with the descriptors that came along
    (internal/helper/reader_unix.go, internal/helper/reader.go:42-49). */
module LineReader {
  import opened Arith
  import opened Outside

  const NEWLINE: Byte := 10
  const RETURN: Byte := 13
  const MAX_LINE := 65536

  /** A control message: SCM_RIGHTS with its descriptors, None when they do not parse. */
  datatype Control = Other | Rights(fds: Option<seq<Fd>>)

  datatype Ancillary = Nothing | Garbled | Controls(msgs: seq<Control>)

  datatype ConnError = EndOfFile | Broken

  /** One answer of ReadMsgUnix. */
  datatype Received = Received(data: seq<Byte>, oob: Ancillary, truncated: bool, err: Option<ConnError>)

  datatype Next = Line(line: seq<Byte>, fds: seq<Fd>) | TooLong | Eof | Failed

  // ---- the lines of a byte stream

  function IndexOfNewline(s: seq<Byte>): (i: nat)
    ensures i <= |s|
    ensures i < |s| ==> s[i] == NEWLINE
    ensures forall k | 0 <= k < i :: s[k] != NEWLINE
  {
    if s == [] || s[0] == NEWLINE then 0 else 1 + IndexOfNewline(s[1..])
  }

  predicate LineEnd(b: Byte) {
    b == NEWLINE || b == RETURN
  }

  function Trim(s: seq<Byte>): seq<Byte> {
    if s != [] && LineEnd(s[|s| - 1]) then Trim(s[..|s| - 1]) else s
  }

  /** Trimming takes off all the trailing line ends and nothing else. */
  lemma {:induction false} TrimTakesLineEnds(s: seq<Byte>)
    ensures var t := Trim(s);
            && t <= s && (t == [] || (t[|t| - 1] != 10 && t[|t| - 1] != 13))
            && forall i | |t| <= i < |s| :: s[i] == 10 || s[i] == 13
  {
    if s != [] && LineEnd(s[|s| - 1]) {
      TrimTakesLineEnds(s[..|s| - 1]);
    }
  }

  /** The newline split, each line trimmed; a last line may lack its newline. */
  function Split(s: seq<Byte>): seq<seq<Byte>>
    decreases |s|
  {
    if s == [] then [] else
      var i := IndexOfNewline(s);
      [Trim(s[..i])] + if i < |s| then Split(s[i + 1..]) else []
  }

  ghost predicate ShortLines(s: seq<Byte>)
    decreases |s|
  {
    s == [] ||
    var i := IndexOfNewline(s);
    i <= MAX_LINE && (i < |s| ==> ShortLines(s[i + 1..]))
  }

  lemma {:induction false} NewlineInPrefix(a: seq<Byte>, b: seq<Byte>)
    ensures IndexOfNewline(a) < |a| ==> IndexOfNewline(a + b) == IndexOfNewline(a)
    ensures IndexOfNewline(a) == |a| ==> IndexOfNewline(a + b) == |a| + IndexOfNewline(b)
  {
    if a == [] {
      assert a + b == b;
    } else {
      assert (a + b)[1..] == a[1..] + b;
      NewlineInPrefix(a[1..], b);
    }
  }

  /** A line is what the input has before its first newline, or at its end. */
  ghost predicate TakesLine(all: seq<Byte>, line: seq<Byte>, rest: seq<Byte>) {
    var i := IndexOfNewline(all);
    all != [] && line == Trim(all[..i]) && rest == if i < |all| then all[i + 1..] else []
  }

  function Written(lines: seq<seq<Byte>>): seq<Byte> {
    if lines == [] then [] else lines[0] + [NEWLINE] + Written(lines[1..])
  }

  /** Lines written one after another are read back as they were. */
  lemma {:induction false} SplitOfWritten(lines: seq<seq<Byte>>)
    requires forall l | l in lines :: 10 !in l && (l == [] || l[|l| - 1] != 13)
    ensures Split(Written(lines)) == lines
  {
    if lines != [] {
      var l, all := lines[0], Written(lines);
      assert all == l + ([NEWLINE] + Written(lines[1..]));
      assert IndexOfNewline(l) == |l| && Trim(l) == l;
      SplitOfWritten(lines[1..]);
      var rest := Written(lines[1..]);
      FirstOfWritten(l, rest);
      hide Split, Written, IndexOfNewline, Trim, TakesLine;
      SplitStep(all, l, rest);
    }
  }

  lemma {:induction false} FirstOfWritten(l: seq<Byte>, rest: seq<Byte>)
    requires IndexOfNewline(l) == |l| && Trim(l) == l
    ensures TakesLine(l + ([NEWLINE] + rest), l, rest)
  {
    NewlineInPrefix(l, [NEWLINE] + rest);
    assert IndexOfNewline([NEWLINE] + rest) == 0;
    hide IndexOfNewline, Trim;
    AfterNewline(l, NEWLINE, rest);
  }

  lemma {:induction false} AfterNewline<T>(l: seq<T>, x: T, rest: seq<T>)
    ensures (l + ([x] + rest))[..|l|] == l && (l + ([x] + rest))[|l| + 1..] == rest
  {
  }

  lemma {:induction false} ShortMeans(s: seq<Byte>)
    ensures ShortLines(s) ==> IndexOfNewline(s) <= MAX_LINE
  {
  }

  lemma SplitOfNothing()
    ensures Split([]) == []
  {
  }

  lemma {:induction false} SplitStep(all: seq<Byte>, line: seq<Byte>, rest: seq<Byte>)
    requires TakesLine(all, line, rest)
    ensures |rest| < |all| && Split(all) == [line] + Split(rest)
    ensures ShortLines(all) ==> ShortLines(rest)
  {
  }

  lemma {:induction false} SplitAt<T>(a: seq<T>, b: seq<T>, i: nat)
    requires i < |a|
    ensures (a + b)[..i] == a[..i] && (a + b)[i + 1..] == a[i + 1..] + b
  {
  }

  lemma {:induction false} LineFound(buf: seq<Byte>, later: seq<Byte>)
    requires IndexOfNewline(buf) < |buf|
    ensures var i := IndexOfNewline(buf); TakesLine(buf + later, Trim(buf[..i]), buf[i + 1..] + later)
  {
    hide IndexOfNewline, Trim;
    NewlineInPrefix(buf, later);
    SplitAt(buf, later, IndexOfNewline(buf));
  }

  lemma {:induction false} LastLine(buf: seq<Byte>)
    requires IndexOfNewline(buf) == |buf| && buf != []
    ensures TakesLine(buf, Trim(buf), [])
  {
    assert buf[..|buf|] == buf;
  }

  // ---- the descriptors that come along

  function RightsIn(msgs: seq<Control>): seq<Fd> {
    if msgs == [] then [] else
      var m := msgs[|msgs| - 1];
      RightsIn(msgs[..|msgs| - 1]) + if m.Rights? && m.fds.Some? then m.fds.value else []
  }

  /** What came with one answer. */
  function Came(oob: Ancillary): seq<Fd> {
    if oob.Controls? then RightsIn(oob.msgs) else []
  }

  function RightsOf(script: seq<Received>): seq<Fd> {
    if script == [] then [] else RightsOf(script[..|script| - 1]) + Came(script[|script| - 1].oob)
  }

  /** Every descriptor of every control message, in order. */
  lemma {:induction false} RightsAre(script: seq<Received>, r: Received, msgs: seq<Control>, m: Control)
    requires r.oob == Controls(msgs + [m])
    ensures RightsOf([]) == [] && RightsIn([]) == []
    ensures RightsOf(script + [r]) == RightsOf(script) + RightsIn(msgs + [m])
    ensures RightsIn(msgs + [m]) == RightsIn(msgs) + if m.Rights? && m.fds.Some? then m.fds.value else []
  {
    assert (script + [r])[..|script|] == script;
    assert (msgs + [m])[..|msgs|] == msgs;
  }

  function Amount(script: seq<Received>): nat {
    if script == [] then 0 else Amount(script[..|script| - 1]) + |script[|script| - 1].data|
  }

  lemma NoRights()
    ensures RightsIn([]) == []
  {
  }

  lemma NothingCame()
    ensures RightsOf([]) == [] && Amount([]) == 0
  {
  }

  lemma {:induction false} OneMoreMessage(msgs: seq<Control>, i: nat)
    requires i < |msgs|
    ensures msgs[..i + 1][..i] == msgs[..i]
    ensures RightsIn(msgs[..i + 1]) ==
            RightsIn(msgs[..i]) + if msgs[i].Rights? && msgs[i].fds.Some? then msgs[i].fds.value else []
  {
    assert msgs[..i + 1][..i] == msgs[..i];
  }

  lemma {:induction false} OneMoreAnswer(script: seq<Received>, n: nat)
    requires n < |script|
    ensures RightsOf(script[..n + 1]) == RightsOf(script[..n]) + Came(script[n].oob)
    ensures Amount(script[..n + 1]) == Amount(script[..n]) + |script[n].data|
  {
    assert script[..n + 1][..n] == script[..n];
  }

  // ---- what is still to come from the connection

  predicate ParseFails(oob: Ancillary) {
    oob.Garbled? || (oob.Controls? && exists i :: 0 <= i < |oob.msgs| && oob.msgs[i] == Rights(None))
  }

  /** Answers that end next with an error other than end of file. */
  predicate Fatal(r: Received) {
    ParseFails(r.oob) || r.truncated || r.err == Some(Broken)
  }

  /** An answer fails for control messages that do not parse, for a cut, or for a broken
      connection. */
  lemma {:induction false} FatalIs(r: Received)
    ensures Fatal(r) <==>
            r.oob == Garbled || (r.oob.Controls? && Rights(None) in r.oob.msgs) || r.truncated || r.err == Some(Broken)
  {
  }

  ghost function Incoming(script: seq<Received>): seq<Byte> {
    if script == [] || Fatal(script[0]) then []
    else if script[0].err.Some? then script[0].data
    else script[0].data + Incoming(script[1..])
  }

  ghost predicate Clean(script: seq<Received>) {
    script == [] || (!Fatal(script[0]) && (script[0].err.Some? || Clean(script[1..])))
  }

  /** An answer without a failure moves its bytes from what is to come to what is buffered. */
  lemma {:induction false} Joined(buf: seq<Byte>, script: seq<Received>, r: Received)
    requires !Fatal(r) && r == if script == [] then Received([], Nothing, false, Some(EndOfFile)) else script[0]
    ensures buf + Incoming(script) == buf + r.data + if r.err.Some? then [] else Incoming(script[1..])
    ensures r.err.None? ==> script != [] && (Clean(script) ==> Clean(script[1..]))
  {
    if r.err.None? {
      assert buf + (r.data + Incoming(script[1..])) == buf + r.data + Incoming(script[1..]);
    }
  }

  lemma NotFatal()
    ensures !ParseFails(Nothing) && !Fatal(Received([], Nothing, false, Some(EndOfFile))) && Came(Nothing) == []
  {
  }

  lemma {:induction false} FatalNotClean(script: seq<Received>)
    requires script != [] && Fatal(script[0])
    ensures !Clean(script)
  {
  }

  /** A connection that answers from a script and ends after it. */
  class Conn {
    var script: seq<Received>

    constructor (s: seq<Received>)
      ensures script == s
    {
      script := s;
    }

    method ReadMsg() returns (r: Received)
      modifies this
      ensures if old(script) == [] then r == Received([], Nothing, false, Some(EndOfFile)) && script == []
              else r == old(script)[0] && script == old(script)[1..]
    {
      if script == [] {
        r := Received([], Nothing, false, Some(EndOfFile));
      } else {
        r, script := script[0], script[1..];
      }
    }
  }

  class UnixReader {
    const conn: Conn
    var buf: seq<Byte>
    var pending: seq<Fd>
    var eof: bool
    // Effects: descriptors taken from control messages, closed here, handed out.
    var received: seq<Fd>
    var closed: seq<Fd>
    var delivered: seq<Fd>

    constructor (c: Conn)
      ensures conn == c && Valid() && pending == [] && delivered == []
      ensures Unread() == Incoming(c.script)
      ensures Cleanly() <==> Clean(c.script)
    {
      conn := c;
      buf, pending, eof := [], [], false;
      received, closed, delivered := [], [], [];
    }

    /** Every descriptor received is in exactly one of the three places. */
    ghost predicate Valid()
      reads `received, `delivered, `closed, `pending
    {
      multiset(received) == multiset(delivered) + multiset(closed) + multiset(pending)
    }

    /** The input not yet returned as a line. */
    ghost function Unread(): seq<Byte>
      reads `buf, `eof, conn
    {
      buf + Later()
    }

    ghost function Later(): seq<Byte>
      reads `eof, conn
    {
      if eof then [] else Incoming(conn.script)
    }

    ghost predicate Cleanly()
      reads `eof, conn
    {
      eof || Clean(conn.script)
    }

    method CloseFDs(fds: seq<Fd>)
      modifies this`closed
      ensures closed == old(closed) + fds
    {
      for i := 0 to |fds|
        invariant closed == old(closed) + fds[..i]
      {
        closed := closed + [fds[i]];
        assert fds[..i + 1] == fds[..i] + [fds[i]];
      }
      assert fds[..|fds|] == fds;
    }

    method ClosePending()
      requires Valid()
      modifies this`closed, this`pending
      ensures Valid() && pending == []
    {
      CloseFDs(pending);
      assert multiset(closed) == multiset(old(closed)) + multiset(pending);
      pending := [];
    }

    /** The pending descriptors go with the line that is returned. */
    method HandOut() returns (fds: seq<Fd>)
      requires Valid()
      modifies this`pending, this`delivered
      ensures Valid() && pending == []
      ensures fds == old(pending) && delivered == old(delivered) + fds
    {
      fds := pending;
      delivered, pending := delivered + pending, [];
      assert multiset(delivered) == multiset(old(delivered)) + multiset(fds);
    }

    /** The descriptors of the messages in turn, or up to a message that does not parse; those
        before it are closed again. */
    method ParseMessages(msgs: seq<Control>) returns (fds: seq<Fd>, ghost dropped: seq<Fd>, ok: bool)
      modifies this`received, this`closed
      ensures ok <==> Rights(None) !in msgs
      ensures ok ==> dropped == [] && fds == RightsIn(msgs)
      ensures !ok ==> fds == []
      ensures received == old(received) + fds + dropped && closed == old(closed) + dropped
    {
      hide RightsIn;
      fds, dropped, ok := [], [], true;
      NoRights();
      for i := 0 to |msgs|
        invariant ok && dropped == [] && Rights(None) !in msgs[..i] && fds == RightsIn(msgs[..i])
        invariant received == old(received) + fds && closed == old(closed)
      {
        var m := msgs[i];
        if m == Rights(None) {
          CloseFDs(fds);
          dropped, fds := fds, [];
          return fds, dropped, false;
        }
        OneMoreMessage(msgs, i);
        if m.Rights? {
          Regroup(old(received), fds, m.fds.value);
          received := received + m.fds.value;
          fds := fds + m.fds.value;
        } else {
          assert fds + [] == fds;
        }
      }
      assert msgs[..|msgs|] == msgs;
    }

    /** parseRights: on a failure whatever was parsed before is closed again. */
    method ParseRights(oob: Ancillary) returns (fds: seq<Fd>, ok: bool)
      requires Valid()
      modifies this`received, this`closed
      ensures ok <==> !ParseFails(oob)
      ensures if ok then fds == Came(oob) && received == old(received) + fds && closed == old(closed) else fds == []
      ensures multiset(received) == multiset(delivered) + multiset(closed) + multiset(pending) + multiset(fds)
    {
      hide RightsIn;
      if !oob.Controls? {
        return [], oob.Nothing?;
      }
      ghost var dropped;
      fds, dropped, ok := ParseMessages(oob.msgs);
      Counts(old(received), fds, dropped);
      assert multiset(closed) == multiset(old(closed)) + multiset(dropped);
    }

    lemma Counts(a: seq<Fd>, b: seq<Fd>, c: seq<Fd>)
      ensures multiset(a + b + c) == multiset(a) + multiset(b) + multiset(c)
    {
    }

    /** What next does with the control messages of one answer. */
    method TakeRights(oob: Ancillary) returns (ok: bool)
      requires Valid()
      modifies this`received, this`closed, this`pending
      ensures Valid()
      ensures ok <==> !ParseFails(oob)
      ensures if ok then pending == old(pending) + Came(oob) && closed == old(closed) else pending == []
    {
      var fds;
      fds, ok := ParseRights(oob);
      ghost var was := pending;
      pending := pending + fds;
      assert multiset(pending) == multiset(was) + multiset(fds);
      if !ok {
        ClosePending();
      }
    }

    /** What next does with one answer. */
    method Take(r: Received) returns (failed: bool)
      requires Valid() && !eof
      modifies `buf, `pending, `eof, `received, `closed
      ensures Valid()
      ensures failed <==> Fatal(r)
      ensures failed ==> pending == []
      ensures !failed ==> closed == old(closed) && pending == old(pending) + Came(r.oob)
      ensures !failed ==> buf == old(buf) + r.data && (eof <==> r.err.Some?)
    {
      hide Valid, ParseFails, RightsIn;
      NotFatal();
      var ok := true;
      if !r.oob.Nothing? {
        ok := TakeRights(r.oob);
      } else {
        assert pending + [] == pending;
      }
      if !ok {
        return true;
      }
      if r.truncated {
        ClosePending();
        return true;
      }
      buf := buf + r.data;
      if r.err.Some? {
        if r.err.value.EndOfFile? {
          eof := true;
        } else {
          assert r.err == Some(Broken);
          ClosePending();
          return true;
        }
      }
      failed := false;
    }

    /** One ReadMsgUnix call. */
    method Fill() returns (failed: bool)
      requires Valid() && !eof
      modifies this, conn
      ensures Valid()
      ensures delivered == old(delivered)
      ensures failed ==> pending == [] && !old(Cleanly())
      ensures failed <==> old(conn.script) != [] && Fatal(old(conn.script)[0])
      ensures conn.script == if old(conn.script) == [] then [] else old(conn.script)[1..]
      ensures !failed ==> closed == old(closed)
      ensures !failed ==>
        pending == old(pending) + if old(conn.script) == [] then [] else Came(old(conn.script)[0].oob)
      ensures !failed ==> |buf| == |old(buf)| + if old(conn.script) == [] then 0 else |old(conn.script)[0].data|
      ensures !failed ==> Unread() == old(Unread()) && (old(Cleanly()) ==> Cleanly())
      ensures !failed ==> eof || |conn.script| < |old(conn.script)|
    {
      hide Valid, Incoming, Clean, Came, Fatal;
      var r := conn.ReadMsg();
      NotFatal();
      if Fatal(r) {
        FatalNotClean(old(conn.script));
      } else {
        Joined(old(buf), old(conn.script), r);
      }
      failed := Take(r);
    }

    /** The line before the first newline in the buffer. */
    method BufferedLine(i: nat) returns (r: Next)
      requires Valid() && i == IndexOfNewline(buf) < |buf|
      modifies `buf, `pending, `delivered
      ensures Valid() && pending == []
      ensures r.Line? && delivered == old(delivered) + r.fds && r.fds == old(pending)
      ensures TakesLine(old(Unread()), r.line, Unread())
    {
      hide Valid, TakesLine, Later, IndexOfNewline, Trim;
      LineFound(buf, Later());
      var fds := HandOut();
      r := Line(Trim(buf[..i]), fds);
      buf := buf[i + 1..];
    }

    /** What is left when the connection has ended. */
    method LastOfInput() returns (r: Next)
      requires Valid() && eof && IndexOfNewline(buf) == |buf|
      modifies `buf, `pending, `delivered, `closed
      ensures Valid() && pending == []
      ensures delivered == old(delivered) + if r.Line? then r.fds else []
      ensures r.Line? || r.Eof?
      ensures r.Line? ==> TakesLine(old(Unread()), r.line, Unread()) && r.fds == old(pending) && closed == old(closed)
      ensures r.Eof? <==> old(Unread()) == []
    {
      hide Valid, TakesLine, Later, IndexOfNewline, Trim;
      NothingLater();
      if |buf| > 0 {
        LastLine(buf);
        var fds := HandOut();
        r := Line(Trim(buf), fds);
        buf := [];
        assert Unread() == [];
      } else {
        ClosePending();
        r := Eof;
      }
    }

    /** Input that comes without errors yields its lines whatever its chunks, up to the
        size limit. A line brings every descriptor that came with the answers it took to
        read it; what is not brought is closed. No further answer is asked for once more than
        65536 bytes are there. */
    method Next() returns (r: Next)
      requires Valid() && pending == []
      modifies this, conn
      ensures Valid() && pending == []
      ensures delivered == old(delivered) + if r.Line? then r.fds else []
      ensures r.Line? ==> TakesLine(old(Unread()), r.line, Unread())
      ensures old(Cleanly()) ==> Cleanly() && !r.Failed?
      ensures old(Cleanly()) ==> (r.Eof? <==> old(Unread()) == [])
      ensures r.TooLong? ==> IndexOfNewline(old(Unread())) > 65536
      ensures |conn.script| <= |old(conn.script)|
      ensures var took := |old(conn.script)| - |conn.script|;
              && conn.script == old(conn.script)[took..]
              && (r.Line? ==> closed == old(closed) && r.fds == RightsOf(old(conn.script)[..took]))
              && (took > 0 ==> |old(buf)| + Amount(old(conn.script)[..took - 1]) <= 65536)
    {
      hide Valid, Incoming, Clean, TakesLine, Later, IndexOfNewline, Trim, Cleanly, RightsOf, Came;
      NothingCame();
      ghost var took := 0;
      assert old(conn.script)[..0] == [];
      while true
        invariant Valid() && delivered == old(delivered) && closed == old(closed)
        invariant took <= |old(conn.script)| && conn.script == old(conn.script)[took..]
        invariant pending == RightsOf(old(conn.script)[..took])
        invariant |buf| == |old(buf)| + Amount(old(conn.script)[..took])
        invariant took > 0 ==> |old(buf)| + Amount(old(conn.script)[..took - 1]) <= 65536
        invariant Unread() == old(Unread()) && (old(Cleanly()) ==> Cleanly())
        decreases !eof, |conn.script|
      {
        var i := IndexOfNewline(buf);
        if i < |buf| {
          r := BufferedLine(i);
          return;
        }
        if |buf| > MAX_LINE {
          NewlineInPrefix(buf, Later());
          ClosePending();
          return TooLong;
        }
        if eof {
          r := LastOfInput();
          return;
        }
        ghost var script := conn.script;
        var failed := Fill();
        if script != [] {
          OneMoreAnswer(old(conn.script), took);
          took := took + 1;
        }
        if failed {
          return Failed;
        }
      }
    }

    lemma NothingLater()
      requires eof
      ensures Later() == [] && Unread() == buf
    {
    }
  }

  /** serve's read loop without the handling: lines until the first error. For input
      whose lines fit, they are the split of the bytes, however these were chunked. */
  method Drain(rd: UnixReader) returns (lines: seq<seq<Byte>>, last: Next)
    requires rd.Valid() && rd.pending == []
    modifies rd, rd.conn
    ensures rd.Valid() && rd.pending == []
    ensures old(rd.Cleanly()) && ShortLines(old(rd.Unread())) ==> lines == Split(old(rd.Unread())) && last.Eof?
  {
    hide UnixReader.Valid, UnixReader.Unread, UnixReader.Cleanly, TakesLine, Split, ShortLines, IndexOfNewline;
    hide RightsOf;
    ghost var all, clean := rd.Unread(), rd.Cleanly() && ShortLines(rd.Unread());
    lines := [];
    assert lines + Split(all) == Split(all);
    while true
      invariant rd.Valid() && rd.pending == []
      invariant clean ==> rd.Cleanly() && ShortLines(rd.Unread())
      invariant lines + Split(rd.Unread()) == Split(all)
      decreases |rd.Unread()|
    {
      ghost var input := rd.Unread();
      last := rd.Next();
      if !last.Line? {
        SplitOfNothing();
        ShortMeans(input);
        return;
      }
      SplitStep(input, last.line, rd.Unread());
      ghost var before := lines;
      lines := lines + [last.line];
      assert before + ([last.line] + Split(rd.Unread())) == lines + Split(rd.Unread());
    }
  }
}
