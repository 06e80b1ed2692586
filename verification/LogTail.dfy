/** Following a job's log file: an offset into a growing file, polled until the job has ended. */
module LogTail {
  import opened ByteStrings
  import opened LogStream

  datatype File = Missing | Present(contents: Bytes)

  /** A file that does not exist yet counts as having nothing in it. */
  function Contents(file: File): Bytes {
    match file case Missing => [] case Present(contents) => contents
  }

  /** What one poll finds: the job's log path, the file there, and whether the job has ended. */
  datatype Poll = Poll(path: int, file: File, terminal: bool)

  /** os.ReadFile and the slice from the offset; an offset beyond the end starts over. */
  method ReadJobLogDelta(file: File, offset: nat) returns (delta: Bytes, next: nat)
    ensures delta == Delta(file, offset)
    ensures next == if file.Missing? then offset else |Contents(file)|
  {
    match file
    case Missing =>
      return [], offset;
    case Present(logs) =>
      var at := offset;
      if at > |logs| {
        at := 0;
      }
      return logs[at..], |logs|;
  }

  function Delta(file: File, offset: nat): (delta: Bytes)
    ensures |delta| <= |Contents(file)|
  {
    var logs := Contents(file);
    if offset > |logs| then logs else logs[offset..]
  }

  /** The bytes that each poll delivers, up to the first that finds the job ended. */
  function Deltas(path: int, offset: nat, polls: seq<Poll>): seq<Bytes>
    decreases |polls|
  {
    if polls == [] then []
    else
      var poll := polls[0];
      var start := if poll.path == path then offset else 0;
      [Delta(poll.file, start)] +
        if poll.terminal then []
        else Deltas(poll.path, if poll.file.Missing? then start else |Contents(poll.file)|, polls[1..])
  }

  function LinesPerPoll(deltas: seq<Bytes>): seq<Bytes> {
    if deltas == [] then [] else Lines(deltas[0]) + LinesPerPoll(deltas[1..])
  }

  method PrepareJobLogStream(file: File) returns (initial: Bytes, offset: nat)
    ensures initial == Contents(file) && offset == |Contents(file)|
  {
    initial, offset := ReadJobLogDelta(file, 0);
  }

  lemma DeltasUnfold(path: int, offset: nat, polls: seq<Poll>, i: nat, sofar: seq<Bytes>)
    requires i < |polls|
    ensures var poll := polls[i]; var start := if poll.path == path then offset else 0;
      sofar + Deltas(path, offset, polls[i..]) == (sofar + [Delta(poll.file, start)]) +
        if poll.terminal then []
        else Deltas(poll.path, if poll.file.Missing? then start else |Contents(poll.file)|, polls[i + 1..])
  {
    var poll := polls[i];
    var start := if poll.path == path then offset else 0;
    assert polls[i..][0] == poll && polls[i..][1..] == polls[i + 1..];
    Associates(sofar, [Delta(poll.file, start)],
               if poll.terminal then []
               else Deltas(poll.path, if poll.file.Missing? then start else |Contents(poll.file)|, polls[i + 1..]));
  }

  lemma {:induction false} LinesPerPollExtend(deltas: seq<Bytes>, delta: Bytes)
    ensures LinesPerPoll(deltas + [delta]) == LinesPerPoll(deltas) + Lines(delta)
  {
    if deltas == [] {
      assert [delta][1..] == [] && [] + [delta] == [delta];
    } else {
      assert (deltas + [delta])[1..] == deltas[1..] + [delta];
      LinesPerPollExtend(deltas[1..], delta);
    }
  }

  method FollowJobLogStream(stream: EventStream, path: int, offset: nat, polls: seq<Poll>)
    modifies stream
    ensures stream.written == old(stream.written) + Events(LinesPerPoll(Deltas(path, offset, polls)))
  {
    var logPath, at := path, offset;
    ghost var deltas: seq<Bytes> := [];
    assert stream.written == old(stream.written) + Events([]);
    for i := 0 to |polls|
      invariant Deltas(path, offset, polls) == deltas + Deltas(logPath, at, polls[i..])
      invariant stream.written == old(stream.written) + Events(LinesPerPoll(deltas))
    {
      DeltasUnfold(logPath, at, polls, i, deltas);
      if polls[i].path != logPath {
        logPath, at := polls[i].path, 0;
      }
      var logs, next := ReadJobLogDelta(polls[i].file, at);
      at := next;
      LinesPerPollExtend(deltas, logs);
      EventsOfSum(LinesPerPoll(deltas), Lines(logs));
      Associates(old(stream.written), Events(LinesPerPoll(deltas)), Printed(logs));
      stream.WriteSSELogEvents(logs);
      deltas := deltas + [logs];
      if polls[i].terminal {
        assert deltas + [] == deltas;
        return;
      }
    }
    assert deltas + [] == deltas;
  }

  /** Everything that is delivered to one client, the contents at first included. */
  function Deliveries(path: int, file: File, polls: seq<Poll>): seq<Bytes> {
    [Contents(file)] + Deltas(path, |Contents(file)|, polls)
  }

  lemma FirstDelivery(logs: Bytes, rest: seq<Bytes>)
    ensures Events(LinesPerPoll([logs] + rest)) == Printed(logs) + Events(LinesPerPoll(rest))
  {
    assert ([logs] + rest)[1..] == rest;
    EventsOfSum(Lines(logs), LinesPerPoll(rest));
  }

  /** The handler: what is there at first and, unless the job had ended then, what the polls add. */
  method StreamJobLog(stream: EventStream, path: int, file: File, terminal: bool, polls: seq<Poll>)
    modifies stream
    ensures stream.written ==
      old(stream.written) + Events(LinesPerPoll(Deliveries(path, file, if terminal then [] else polls)))
  {
    var logs, offset := PrepareJobLogStream(file);
    stream.WriteSSELogEvents(logs);
    ghost var rest := Deltas(path, |Contents(file)|, if terminal then [] else polls);
    FirstDelivery(logs, rest);
    Associates(old(stream.written), Printed(logs), Events(LinesPerPoll(rest)));
    if terminal {
      assert stream.written + [] == stream.written;
    } else {
      FollowJobLogStream(stream, path, offset, polls);
    }
  }

  /** The file at this path only grows from `seen`, and is not removed once there is something in it. */
  predicate Grows(path: int, seen: Bytes, polls: seq<Poll>)
    decreases |polls|
  {
    polls == [] ||
    (polls[0].path == path && seen <= Contents(polls[0].file) && Grows(path, Contents(polls[0].file), polls[1..]))
  }

  /** The file at the last poll that is made. */
  function LastSeen(seen: Bytes, polls: seq<Poll>): Bytes
    decreases |polls|
  {
    if polls == [] then seen
    else if polls[0].terminal then Contents(polls[0].file)
    else LastSeen(Contents(polls[0].file), polls[1..])
  }

  /** Nothing is lost and nothing is delivered twice: what was seen and all that is polled make up the file. */
  lemma {:induction false} TailConservesBytes(path: int, seen: Bytes, polls: seq<Poll>)
    requires Grows(path, seen, polls)
    ensures seen + Concat(Deltas(path, |seen|, polls)) == LastSeen(seen, polls)
    decreases |polls|
  {
    if polls == [] {
      assert seen + [] == seen;
    } else {
      var now := Contents(polls[0].file);
      var delta := Delta(polls[0].file, |seen|);
      assert seen + delta == now;
      if polls[0].terminal {
        assert Deltas(path, |seen|, polls)[1..] == [] && delta + [] == delta;
      } else {
        var rest := Deltas(path, |now|, polls[1..]);
        assert Deltas(path, |seen|, polls) == [delta] + rest && ([delta] + rest)[1..] == rest;
        TailConservesBytes(path, now, polls[1..]);
        Associates(seen, delta, Concat(rest));
      }
    }
  }

  /** From the start of the stream on, whether or not there is a file at first. */
  lemma StreamConservesBytes(path: int, file: File, polls: seq<Poll>)
    requires Grows(path, Contents(file), polls)
    ensures Contents(file) + Concat(Deltas(path, |Contents(file)|, polls)) == LastSeen(Contents(file), polls)
  {
    TailConservesBytes(path, Contents(file), polls);
  }

  /** A change of the log path starts over at the beginning of the new file. */
  lemma PathChangeStartsOver(path: int, offset: nat, polls: seq<Poll>)
    requires polls != [] && polls[0].path != path && Grows(polls[0].path, [], polls)
    ensures Concat(Deltas(path, offset, polls)) == LastSeen([], polls)
  {
    TailConservesBytes(polls[0].path, [], polls);
    assert [] + Concat(Deltas(path, offset, polls)) == Concat(Deltas(path, offset, polls));
  }

  /**
   * A file that is shorter than what was delivered of it has been truncated: all that it holds by then is delivered,
   * and from there on it counts as any other file that grows.
   */
  lemma TruncationStartsOver(path: int, offset: nat, polls: seq<Poll>)
    requires polls != [] && |Contents(polls[0].file)| < offset && polls[0].file.Present? && Grows(path, [], polls)
    ensures Deltas(path, offset, polls)[0] == Contents(polls[0].file)
    ensures Concat(Deltas(path, offset, polls)) == LastSeen([], polls)
  {
    assert Contents(polls[0].file)[0..] == Contents(polls[0].file);
    assert Deltas(path, offset, polls) == Deltas(path, 0, polls);
    TailConservesBytes(path, [], polls);
    assert [] + Concat(Deltas(path, 0, polls)) == Concat(Deltas(path, 0, polls));
  }

  /** Every delivery that something follows ends with a line. */
  ghost predicate CutAtLineEnds(deltas: seq<Bytes>) {
    forall i :: 0 <= i < |deltas| && Concat(deltas[i + 1..]) != [] ==> Terminated(deltas[i])
  }

  lemma UncutIsOneLine(text: Bytes)
    requires text != [] && forall k :: 0 <= k < |text| ==> text[k] != NEWLINE
    ensures |Lines(text)| == 1
  {
    assert Cut(text) == |text|;
  }

  lemma GluedFirstLine(text: Bytes, rest: Bytes)
    requires text != [] && Cut(text) == |text| && rest != []
    ensures |Lines(text + rest)| == |Lines(rest)|
  {
    var i := Cut(rest);
    if i < |rest| {
      LinesUnfold(rest);
      var first, more := text + rest[..i], rest[i + 1..];
      assert text + rest == first + [NEWLINE] + more by {
        Associates(text, rest[..i], [NEWLINE]);
        Associates(text, rest[..i] + [NEWLINE], more);
      }
      LinesOf(first, more);
    } else {
      UncutIsOneLine(rest);
      UncutIsOneLine(text + rest);
    }
  }

  /** A line that is cut in two is printed as two lines. */
  lemma {:induction false} CutLineCountsTwice(text: Bytes, rest: Bytes)
    requires !Terminated(text) && rest != []
    ensures |Lines(text + rest)| == |Lines(text)| + |Lines(rest)| - 1
    decreases |text|
  {
    var i := Cut(text);
    if i == |text| {
      GluedFirstLine(text, rest);
    } else {
      LinesUnfold(text);
      var line, more := text[..i], text[i + 1..];
      assert text[i] == NEWLINE != text[|text| - 1];
      CutLineCountsTwice(more, rest);
      Associates(line + [NEWLINE], more, rest);
      LinesOf(line, more + rest);
    }
  }

  lemma CutsUnfold(deltas: seq<Bytes>)
    requires deltas != []
    ensures CutAtLineEnds(deltas) <==>
      (Concat(deltas[1..]) != [] ==> Terminated(deltas[0])) && CutAtLineEnds(deltas[1..])
  {
    assert forall i :: 0 <= i < |deltas| - 1 ==>
      deltas[1..][i] == deltas[i + 1] && deltas[1..][i + 1..] == deltas[i + 2..];
    if CutAtLineEnds(deltas[1..]) {
      assert forall i :: 0 < i < |deltas| ==> deltas[i] == deltas[1..][i - 1] && deltas[i + 1..] == deltas[1..][i..];
    }
  }

  lemma {:induction false} NoMoreBytesNoMoreLines(deltas: seq<Bytes>)
    requires Concat(deltas) == []
    ensures LinesPerPoll(deltas) == [] && CutAtLineEnds(deltas)
  {
    if deltas != [] {
      NoMoreBytesNoMoreLines(deltas[1..]);
      CutsUnfold(deltas);
    }
  }

  lemma SameAfter(first: seq<Bytes>, second: seq<Bytes>, third: seq<Bytes>)
    ensures first + second == first + third <==> second == third
  {
    assert (first + second)[|first|..] == second && (first + third)[|first|..] == third;
  }

  /** Deliveries never print fewer lines than the whole text has, and the same ones exactly if none cuts a line. */
  lemma {:induction false} DeliveriesKeepLinesIff(deltas: seq<Bytes>)
    ensures |LinesPerPoll(deltas)| >= |Lines(Concat(deltas))|
    ensures LinesPerPoll(deltas) == Lines(Concat(deltas)) <==> CutAtLineEnds(deltas)
  {
    if deltas != [] {
      var delta, rest := deltas[0], deltas[1..];
      DeliveriesKeepLinesIff(rest);
      CutsUnfold(deltas);
      if Terminated(delta) {
        LinesOfTerminated(delta, Concat(rest));
        SameAfter(Lines(delta), LinesPerPoll(rest), Lines(Concat(rest)));
      } else if Concat(rest) == [] {
        NoMoreBytesNoMoreLines(rest);
        assert delta + [] == delta && Lines(delta) + [] == Lines(delta);
      } else {
        CutLineCountsTwice(delta, Concat(rest));
      }
    }
  }

  /** What was in the file at first and at each poll that is made. */
  function Snapshots(seen: Bytes, polls: seq<Poll>): seq<Bytes>
    decreases |polls|
  {
    [seen] +
      if polls == [] then []
      else if polls[0].terminal then [Contents(polls[0].file)]
      else Snapshots(Contents(polls[0].file), polls[1..])
  }

  /** Whenever the file was read and more was to come, it ended with a finished line. */
  ghost predicate ReadAtLineEnds(seen: Bytes, polls: seq<Poll>) {
    forall text :: text in Snapshots(seen, polls) && text != LastSeen(seen, polls) ==> Terminated(text)
  }

  lemma ReadAtLineEndsUnfolds(seen: Bytes, polls: seq<Poll>)
    ensures ReadAtLineEnds(seen, polls) <==>
      && (seen != LastSeen(seen, polls) ==> Terminated(seen))
      && (polls != [] && !polls[0].terminal ==> ReadAtLineEnds(Contents(polls[0].file), polls[1..]))
  {
    if polls != [] && !polls[0].terminal {
      var rest := Snapshots(Contents(polls[0].file), polls[1..]);
      assert forall text :: text in Snapshots(seen, polls) <==> text == seen || text in rest;
    }
  }

  lemma DeltasOfPoll(path: int, seen: Bytes, polls: seq<Poll>)
    requires polls != [] && Grows(path, seen, polls)
    ensures var now := Contents(polls[0].file); var delta := Delta(polls[0].file, |seen|);
      && seen + delta == now
      && Deltas(path, |seen|, polls) == [delta] + if polls[0].terminal then [] else Deltas(path, |now|, polls[1..])
  {
  }

  lemma CutsOf(delta: Bytes, rest: seq<Bytes>)
    ensures CutAtLineEnds([delta] + rest) <==> (Concat(rest) != [] ==> Terminated(delta)) && CutAtLineEnds(rest)
  {
    CutsUnfold([delta] + rest);
    assert ([delta] + rest)[1..] == rest;
  }

  /** Two deliveries in a row, and the same bytes at once. */
  lemma CutsOfTwo(seen: Bytes, delta: Bytes, rest: seq<Bytes>)
    ensures Concat([delta] + rest) == delta + Concat(rest)
    ensures CutAtLineEnds([seen] + ([delta] + rest)) <==>
      (delta + Concat(rest) != [] ==> Terminated(seen)) && CutAtLineEnds([seen + delta] + rest)
  {
    assert ([delta] + rest)[1..] == rest;
    CutsOf(seen, [delta] + rest);
    CutsOf(delta, rest);
    CutsOf(seen + delta, rest);
    if delta == [] { assert seen + delta == seen; }
  }

  lemma NothingFollows(seen: Bytes)
    ensures CutAtLineEnds([seen])
  {
    CutsOf(seen, []);
    assert [seen] + [] == [seen] && CutAtLineEnds([]);
  }

  lemma NothingAdded(seen: Bytes, more: Bytes)
    ensures seen + more == seen <==> more == []
  {
    assert |seen + more| == |seen| + |more|;
    assert seen + [] == seen;
  }

  lemma PollCutsAreReads(path: int, seen: Bytes, polls: seq<Poll>)
    requires polls != [] && Grows(path, seen, polls)
    ensures var now := Contents(polls[0].file);
      CutAtLineEnds([seen] + Deltas(path, |seen|, polls)) <==>
        && (seen != LastSeen(seen, polls) ==> Terminated(seen))
        && (!polls[0].terminal ==> CutAtLineEnds([now] + Deltas(path, |now|, polls[1..])))
  {
    var now, delta := Contents(polls[0].file), Delta(polls[0].file, |seen|);
    var rest := if polls[0].terminal then [] else Deltas(path, |now|, polls[1..]);
    DeltasOfPoll(path, seen, polls);
    CutsOfTwo(seen, delta, rest);
    TailConservesBytes(path, seen, polls);
    NothingFollows(now);
    if polls[0].terminal { assert [now] + rest == [now]; }
    assert seen + (delta + Concat(rest)) == LastSeen(seen, polls);
    NothingAdded(seen, delta + Concat(rest));
  }

  lemma {:induction false} CutsAreReads(path: int, seen: Bytes, polls: seq<Poll>)
    requires Grows(path, seen, polls)
    ensures CutAtLineEnds([seen] + Deltas(path, |seen|, polls)) <==> ReadAtLineEnds(seen, polls)
    decreases |polls|
  {
    ReadAtLineEndsUnfolds(seen, polls);
    if polls == [] {
      NothingFollows(seen);
      assert [seen] + Deltas(path, |seen|, polls) == [seen];
    } else {
      PollCutsAreReads(path, seen, polls);
      if !polls[0].terminal {
        CutsAreReads(path, Contents(polls[0].file), polls[1..]);
      }
    }
  }

  /**
   * The stream of a growing file shows exactly the lines of the file as it was read last, if and only if each time the
   * file was read before it ended with a finished line, or nothing was added after that.
   */
  lemma LinesSurviveIff(path: int, file: File, polls: seq<Poll>)
    requires Grows(path, Contents(file), polls)
    ensures LinesPerPoll(Deliveries(path, file, polls)) == Lines(LastSeen(Contents(file), polls)) <==>
      ReadAtLineEnds(Contents(file), polls)
  {
    var seen := Contents(file);
    TailConservesBytes(path, seen, polls);
    assert Deliveries(path, file, polls)[1..] == Deltas(path, |seen|, polls);
    CutsAreReads(path, seen, polls);
    DeliveriesKeepLinesIff(Deliveries(path, file, polls));
  }

  lemma FinishedLine(line: Bytes)
    requires NEWLINE !in line
    ensures Lines(line + [NEWLINE]) == [line]
  {
    LinesOf(line, []);
    assert line + [NEWLINE] + [] == line + [NEWLINE] && [line] + Lines([]) == [line];
  }

  lemma TwoDeliveries(first: Bytes, second: Bytes)
    ensures LinesPerPoll([first] + [second]) == Lines(first) + Lines(second)
  {
    LinesPerPollExtend([first], second);
    LinesPerPollExtend([], first);
    assert [] + [first] == [first] && [] + Lines(first) == Lines(first);
  }

  /** A line of which the beginning `a` is read before the end `b` has been written is shown as two lines. */
  lemma CutLineShownTwice(a: Bytes, b: Bytes)
    requires a != [] && NEWLINE !in a + b
    ensures var polls := [Poll(0, Present(a + (b + [NEWLINE])), true)];
      && Grows(0, a, polls) && LinesPerPoll(Deliveries(0, Present(a), polls)) == [a] + [b]
      && Lines(LastSeen(a, polls)) == [a + b]
  {
    var all := a + (b + [NEWLINE]);
    var polls := [Poll(0, Present(all), true)];
    assert forall c :: c in a || c in b ==> c in a + b;
    assert polls[1..] == [] && a <= all && all[|a|..] == b + [NEWLINE];
    assert Deliveries(0, Present(a), polls) == [a] + [b + [NEWLINE]];
    TwoDeliveries(a, b + [NEWLINE]);
    assert Cut(a) == |a|;
    FinishedLine(b);
    Associates(a, b, [NEWLINE]);
    FinishedLine(a + b);
  }

  /** "a" is read before the rest of the line "ab" has been written. */
  lemma OneLineShownAsTwo()
    ensures LinesPerPoll(Deliveries(0, Present([97]), [Poll(0, Present([97, 98, 10]), true)])) == [[97], [98]]
    ensures Lines([97, 98, 10]) == [[97, 98]]
  {
    CutLineShownTwice([97], [98]);
    var a: Bytes := [97];
    assert a + ([98] + [NEWLINE]) == [97, 98, 10] && a + [98] == [97, 98];
  }
}
