/** Job logs as server-sent events: the printer and the buffering reader. */
module LogStream {
  import opened ByteStrings

  const NEWLINE: Byte := 10
  /** "data: " */
  const DATA: Bytes := [100, 97, 116, 97, 58, 32]

  /** The position of the first newline, or the length if there is none. */
  function Cut(text: Bytes): (i: nat)
    ensures i <= |text|
    ensures forall k :: 0 <= k < i ==> text[k] != NEWLINE
    ensures i < |text| ==> text[i] == NEWLINE
  {
    if text == [] || text[0] == NEWLINE then 0 else 1 + Cut(text[1..])
  }

  /** The newline-separated lines of a text: an unterminated last line counts, an empty one does not. */
  function Lines(text: Bytes): seq<Bytes> {
    if text == [] then []
    else
      var i := Cut(text);
      if i == |text| then [text] else [text[..i]] + Lines(text[i + 1..])
  }

  function Event(line: Bytes): Bytes {
    DATA + line + [NEWLINE, NEWLINE]
  }

  function Events(lines: seq<Bytes>): Bytes {
    if lines == [] then [] else Event(lines[0]) + Events(lines[1..])
  }

  predicate Terminated(text: Bytes) {
    text == [] || text[|text| - 1] == NEWLINE
  }

  lemma CutOf(line: Bytes, rest: Bytes)
    requires NEWLINE !in line
    ensures Cut(line + [NEWLINE] + rest) == |line|
  {
    var text := line + [NEWLINE] + rest;
    assert text[|line|] == NEWLINE;
    assert forall k :: 0 <= k < |line| ==> text[k] == line[k] && line[k] in line;
  }

  lemma LinesOf(line: Bytes, rest: Bytes)
    requires NEWLINE !in line
    ensures Lines(line + [NEWLINE] + rest) == [line] + Lines(rest)
  {
    var text := line + [NEWLINE] + rest;
    CutOf(line, rest);
    assert text[..|line|] == line && text[|line| + 1..] == rest;
  }

  lemma LinesUnfold(text: Bytes)
    requires Cut(text) < |text|
    ensures text == text[..Cut(text)] + [NEWLINE] + text[Cut(text) + 1..] && NEWLINE !in text[..Cut(text)]
    ensures Lines(text) == [text[..Cut(text)]] + Lines(text[Cut(text) + 1..])
  {
    var i := Cut(text);
    SplitAt(text, i);
  }

  lemma TerminatedUnfolds(text: Bytes)
    requires Terminated(text) && text != []
    ensures Cut(text) < |text| && Terminated(text[Cut(text) + 1..])
  {
    assert text[|text| - 1] == NEWLINE;
  }

  /** Cutting a text after a newline cuts its lines. */
  lemma {:induction false} LinesOfTerminated(text: Bytes, rest: Bytes)
    requires Terminated(text)
    ensures Lines(text + rest) == Lines(text) + Lines(rest)
    decreases |text|
  {
    if text == [] {
      assert text + rest == rest;
    } else {
      TerminatedUnfolds(text);
      LinesUnfold(text);
      var line, more := text[..Cut(text)], text[Cut(text) + 1..];
      LinesOfTerminated(more, rest);
      Associates(line + [NEWLINE], more, rest);
      LinesOf(line, more + rest);
      Associates([line], Lines(more), Lines(rest));
    }
  }

  lemma {:induction false} EventsOfSum(first: seq<Bytes>, second: seq<Bytes>)
    ensures Events(first + second) == Events(first) + Events(second)
  {
    if first == [] {
      assert first + second == second;
    } else {
      assert (first + second)[1..] == first[1..] + second;
      EventsOfSum(first[1..], second);
      assert Event(first[0]) + (Events(first[1..]) + Events(second)) == Events(first) + Events(second);
    }
  }

  lemma {:induction false} LinesHoldNoNewline(text: Bytes)
    ensures forall line :: line in Lines(text) ==> NEWLINE !in line
    decreases |text|
  {
    if text != [] && Cut(text) < |text| {
      LinesUnfold(text);
      LinesHoldNoNewline(text[Cut(text) + 1..]);
    }
  }

  /** Each line with a newline behind it. */
  function Unlines(lines: seq<Bytes>): Bytes {
    if lines == [] then [] else lines[0] + [NEWLINE] + Unlines(lines[1..])
  }

  lemma UnlinesOfOne(line: Bytes, rest: seq<Bytes>)
    ensures Unlines([line] + rest) == line + [NEWLINE] + Unlines(rest)
  {
    assert ([line] + rest)[1..] == rest;
  }

  lemma TerminatedAfter(line: Bytes, more: Bytes)
    ensures Terminated(line + [NEWLINE] + more) <==> Terminated(more)
  {
    var text := line + [NEWLINE] + more;
    if more != [] { assert text[|text| - 1] == more[|more| - 1]; }
  }

  /** The lines of a text are the text again, but for a newline at its end, and none of them holds one. */
  lemma {:induction false} LinesMakeText(text: Bytes)
    ensures Unlines(Lines(text)) == if Terminated(text) then text else text + [NEWLINE]
    ensures forall line :: line in Lines(text) ==> NEWLINE !in line
    decreases |text|
  {
    LinesHoldNoNewline(text);
    if text != [] {
      if Cut(text) == |text| {
        UnlinesOfOne(text, []);
        assert [text] + [] == [text] && text + [NEWLINE] + [] == text + [NEWLINE];
      } else {
        var line, more := text[..Cut(text)], text[Cut(text) + 1..];
        LinesUnfold(text);
        LinesMakeText(more);
        UnlinesOfOne(line, Lines(more));
        TerminatedAfter(line, more);
        Associates(line + [NEWLINE], more, [NEWLINE]);
      }
    }
  }

  /** The length of a text up to and including its last newline. */
  function LastNewline(text: Bytes): (n: nat)
    ensures n <= |text| && (n == 0 || text[n - 1] == NEWLINE)
    ensures forall k :: n <= k < |text| ==> text[k] != NEWLINE
  {
    if text == [] || text[|text| - 1] == NEWLINE then |text| else LastNewline(text[..|text| - 1])
  }

  lemma LastNewlineIsUnique(text: Bytes, n: nat)
    requires n <= |text| && (n == 0 || text[n - 1] == NEWLINE)
    requires forall k :: n <= k < |text| ==> text[k] != NEWLINE
    ensures LastNewline(text) == n
  {
    var m := LastNewline(text);
    assert m > 0 ==> text[m - 1] == NEWLINE;
  }

  /** Holding back what follows the last newline and looking for it there again finds the last newline of all. */
  lemma LastNewlineOfSum(text: Bytes, n: nat, more: Bytes)
    requires n == LastNewline(text)
    ensures LastNewline(text + more) == n + LastNewline(text[n..] + more)
  {
    var pending := text[n..] + more;
    var k := LastNewline(pending);
    assert text + more == text[..n] + pending;
    assert forall i :: n <= i < |text + more| ==> (text + more)[i] == pending[i - n];
    assert k == 0 && n > 0 ==> (text + more)[n - 1] == text[n - 1];
    LastNewlineIsUnique(text + more, n + k);
  }

  lemma SumSplits(text: Bytes, n: nat, more: Bytes, k: nat)
    requires n <= |text| && n + k <= |text + more|
    ensures (text + more)[..n + k] == text[..n] + (text[n..] + more)[..k]
    ensures (text + more)[n + k..] == (text[n..] + more)[k..]
  {
    assert text + more == text[..n] + (text[n..] + more);
  }

  /** What the printer writes for a text, and how it adds up at newlines. */
  function Printed(text: Bytes): Bytes {
    Events(Lines(text))
  }

  lemma PrintedOfTerminated(text: Bytes, rest: Bytes)
    requires Terminated(text)
    ensures Printed(text + rest) == Printed(text) + Printed(rest)
  {
    LinesOfTerminated(text, rest);
    EventsOfSum(Lines(text), Lines(rest));
  }

  lemma EventsUnfold(line: Bytes, rest: seq<Bytes>)
    ensures Events([line] + rest) == Event(line) + Events(rest)
  {
    assert ([line] + rest)[1..] == rest;
  }

  lemma PrintedUnfolds(text: Bytes)
    requires Cut(text) < |text|
    ensures Printed(text) == Event(text[..Cut(text)]) + Printed(text[Cut(text) + 1..])
  {
    LinesUnfold(text);
    EventsUnfold(text[..Cut(text)], Lines(text[Cut(text) + 1..]));
  }

  lemma PrintedLastLine(text: Bytes)
    requires text != [] && Cut(text) == |text|
    ensures Printed(text) == Event(text)
  {
    assert Events([text][1..]) == [];
  }

  /** How one read of the log went: bytes may come together with the end of the log or a failure. */
  datatype Status = More | Eof | Failed
  datatype Read = Read(bytes: Bytes, status: Status)

  /** The bytes that arrive up to the first read that is the last. */
  function Arrived(script: seq<Read>): Bytes {
    if script == [] then []
    else if script[0].status.More? then script[0].bytes + Arrived(script[1..])
    else script[0].bytes
  }

  function Ending(script: seq<Read>): Status {
    if script == [] then More
    else if script[0].status.More? then Ending(script[1..])
    else script[0].status
  }

  /** What a client can have seen: an unfinished line is held back until the log ends. */
  function Visible(script: seq<Read>): Bytes {
    if Ending(script).Eof? then Arrived(script) else Arrived(script)[..LastNewline(Arrived(script))]
  }

  /** The events of the finished lines of a text. */
  function PrintedLines(text: Bytes): Bytes {
    Printed(text[..LastNewline(text)])
  }

  lemma PrintedSplits(text: Bytes)
    ensures Printed(text) == PrintedLines(text) + Printed(text[LastNewline(text)..])
  {
    var n := LastNewline(text);
    assert text == text[..n] + text[n..];
    PrintedOfTerminated(text[..n], text[n..]);
  }

  /** One turn of the reader: the finished lines among what was held back and what came. */
  lemma ReadTurn(text: Bytes, more: Bytes)
    ensures var pending := text[LastNewline(text)..] + more;
      PrintedLines(text + more) == PrintedLines(text) + Printed(pending[..LastNewline(pending)])
  {
    var n := LastNewline(text);
    var pending := text[n..] + more;
    var k := LastNewline(pending);
    LastNewlineOfSum(text, n, more);
    SumSplits(text, n, more, k);
    PrintedOfTerminated(text[..n], pending[..k]);
  }

  lemma ReadTurnHoldsBack(text: Bytes, more: Bytes)
    ensures var pending := text[LastNewline(text)..] + more;
      (text + more)[LastNewline(text + more)..] == pending[LastNewline(pending)..]
  {
    var n := LastNewline(text);
    LastNewlineOfSum(text, n, more);
    SumSplits(text, n, more, LastNewline(text[n..] + more));
  }

  lemma ArrivedUnfolds(script: seq<Read>, i: nat, sofar: Bytes)
    requires i < |script|
    ensures sofar + Arrived(script[i..]) ==
      (sofar + script[i].bytes) + if script[i].status.More? then Arrived(script[i + 1..]) else []
    ensures Ending(script[i..]) == if script[i].status.More? then Ending(script[i + 1..]) else script[i].status
  {
    assert script[i..][1..] == script[i + 1..];
  }

  /** The response body that events are printed to. */
  class EventStream {
    var written: Bytes

    constructor ()
      ensures written == []
    {
      written := [];
    }

    method WriteSSEEvent(data: Bytes)
      modifies this
      ensures written == old(written) + Event(data)
    {
      written := written + Event(data);
    }

    method WriteSSELogEvents(logs: Bytes)
      modifies this
      ensures written == old(written) + Printed(logs)
    {
      var rest := logs;
      while rest != []
        invariant written + Printed(rest) == old(written) + Printed(logs)
        decreases |rest|
      {
        var i := Cut(rest);
        ghost var before := written;
        WriteSSEEvent(rest[..i]);
        if i == |rest| {
          PrintedLastLine(rest);
          return;
        }
        PrintedUnfolds(rest);
        Associates(before, Event(rest[..i]), Printed(rest[i + 1..]));
        rest := rest[i + 1..];
      }
      assert written + [] == written;
    }

    /** What the reader does with what it has: print the finished lines, keep the rest. */
    method PrintFinished(pending: Bytes) returns (rest: Bytes)
      modifies this
      ensures written == old(written) + PrintedLines(pending) && rest == pending[LastNewline(pending)..]
    {
      var k := LastNewline(pending);
      if k > 0 {
        WriteSSELogEvents(pending[..k]);
        rest := pending[k..];
      } else {
        rest := pending;
        assert PrintedLines(pending) == [];
      }
    }

    /** `failed` is the read error that is reported: a failure after the client has gone is not. */
    method StreamSSELogReader(script: seq<Read>, cancelled: bool) returns (failed: bool)
      modifies this
      ensures failed == (Ending(script).Failed? && !cancelled)
      ensures written == old(written) + Printed(Visible(script))
    {
      var pending: Bytes := [];
      ghost var read: Bytes := [];
      assert read + Arrived(script) == Arrived(script);
      for i := 0 to |script|
        invariant Arrived(script) == read + Arrived(script[i..]) && Ending(script) == Ending(script[i..])
        invariant pending == read[LastNewline(read)..]
        invariant written == old(written) + PrintedLines(read)
      {
        ReadTurn(read, script[i].bytes);
        ReadTurnHoldsBack(read, script[i].bytes);
        ArrivedUnfolds(script, i, read);
        pending := pending + script[i].bytes;
        Associates(old(written), PrintedLines(read), PrintedLines(pending));
        pending := PrintFinished(pending);
        read := read + script[i].bytes;
        if !script[i].status.More? {
          assert Arrived(script) == read;
          if script[i].status.Failed? {
            return !cancelled;
          }
          PrintedSplits(read);
          Associates(old(written), PrintedLines(read), Printed(pending));
          WriteSSELogEvents(pending);
          return false;
        }
      }
      assert Arrived(script) == read;
      return false;
    }
  }
}
