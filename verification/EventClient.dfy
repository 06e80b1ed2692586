/** The client's reading of server-sent events, and the way of a log through printer, reader and client. */
module EventClient {
  import opened ByteStrings
  import opened LogStream

  const CARRIAGE_RETURN: Byte := 13
  /** bufio.MaxScanTokenSize: a line fits the scanner's buffer if it is shorter than this. */
  const MAX_TOKEN: nat := 65536
  const LONGEST_LINE: nat := 65529

  predicate EndsInCR(line: Bytes) {
    line != [] && line[|line| - 1] == CARRIAGE_RETURN
  }

  /** bufio.ScanLines drops one carriage return at the end of a line. */
  function DropCR(line: Bytes): Bytes {
    if EndsInCR(line) then line[..|line| - 1] else line
  }

  /** What is emitted before the end of the stream or the first line that does not fit. */
  datatype Parsed = Parsed(emitted: seq<Bytes>, tooLong: bool)

  function Payload(line: Bytes): seq<Bytes> {
    if DATA <= line then [line[|DATA|..]] else []
  }

  function After(first: seq<Bytes>, rest: Parsed): Parsed {
    Parsed(first + rest.emitted, rest.tooLong)
  }

  function Parse(lines: seq<Bytes>): Parsed {
    if lines == [] then Parsed([], false)
    else if |lines[0]| >= MAX_TOKEN then Parsed([], true)
    else After(Payload(DropCR(lines[0])), Parse(lines[1..]))
  }

  lemma ParseUnfolds(line: Bytes, rest: seq<Bytes>)
    ensures Parse([line] + rest) ==
      if |line| >= MAX_TOKEN then Parsed([], true) else After(Payload(DropCR(line)), Parse(rest))
  {
    assert ([line] + rest)[1..] == rest;
  }

  lemma AfterTwo(first: seq<Bytes>, second: seq<Bytes>, rest: Parsed)
    ensures After(first, After(second, rest)) == After(first + second, rest)
  {
    assert first + (second + rest.emitted) == (first + second) + rest.emitted;
  }

  /** What the scanner has left after its first line. */
  function BeyondLine(text: Bytes): Bytes {
    if Cut(text) < |text| then text[Cut(text) + 1..] else []
  }

  lemma ScanUnfolds(text: Bytes)
    requires text != []
    ensures Parse(Lines(text)) ==
      if Cut(text) >= MAX_TOKEN then Parsed([], true)
      else After(Payload(DropCR(text[..Cut(text)])), Parse(Lines(BeyondLine(text))))
  {
    if Cut(text) < |text| {
      LinesUnfold(text);
      ParseUnfolds(text[..Cut(text)], Lines(text[Cut(text) + 1..]));
    } else {
      assert text[..|text|] == text && [text] + [] == [text];
      ParseUnfolds(text, []);
    }
  }

  /** The scanner splits the stream lazily; lines that do not start with the data field are skipped. */
  method ReadSSEData(stream: Bytes) returns (emitted: seq<Bytes>, tooLong: bool)
    ensures Parsed(emitted, tooLong) == Parse(Lines(stream))
  {
    emitted := [];
    var rest := stream;
    while rest != []
      invariant Parse(Lines(stream)) == After(emitted, Parse(Lines(rest)))
      decreases |rest|
    {
      ScanUnfolds(rest);
      var i := Cut(rest);
      if i >= MAX_TOKEN {
        return emitted, true;
      }
      var line := DropCR(rest[..i]);
      AfterTwo(emitted, Payload(line), Parse(Lines(BeyondLine(rest))));
      emitted := emitted + if DATA <= line then [line[|DATA|..]] else [];
      rest := BeyondLine(rest);
    }
    return emitted, false;
  }

  /** What the client gets of printed lines: up to the first that does not fit, each without a final carriage return. */
  function Delivered(lines: seq<Bytes>): Parsed {
    if lines == [] then Parsed([], false)
    else if |lines[0]| > LONGEST_LINE then Parsed([], true)
    else After([DropCR(lines[0])], Delivered(lines[1..]))
  }

  /** One event is a data line and an empty line. */
  lemma LinesOfEvent(line: Bytes, rest: Bytes)
    requires NEWLINE !in line
    ensures Lines(Event(line) + rest) == [DATA + line] + ([[]] + Lines(rest))
  {
    var empty: Bytes := [];
    LinesOf(DATA + line, empty + [NEWLINE] + rest);
    LinesOf(empty, rest);
    assert Event(line) + rest == (DATA + line) + [NEWLINE] + (empty + [NEWLINE] + rest);
  }

  lemma PayloadOfEvent(line: Bytes)
    ensures Payload(DropCR(DATA + line)) == [DropCR(line)]
  {
    if line == [] {
      assert DATA + line == DATA;
    } else {
      assert (DATA + line)[..|DATA + line| - 1] == DATA + line[..|line| - 1];
    }
  }

  lemma EmptyLineIsSkipped(lines: seq<Bytes>)
    ensures Parse([[]] + lines) == Parse(lines)
  {
    ParseUnfolds([], lines);
    assert [] + Parse(lines).emitted == Parse(lines).emitted;
  }

  lemma ParseOfEvent(line: Bytes, rest: Bytes)
    requires NEWLINE !in line
    ensures Parse(Lines(Event(line) + rest)) ==
      if |line| > LONGEST_LINE then Parsed([], true) else After([DropCR(line)], Parse(Lines(rest)))
  {
    LinesOfEvent(line, rest);
    ParseUnfolds(DATA + line, [[]] + Lines(rest));
    EmptyLineIsSkipped(Lines(rest));
    PayloadOfEvent(line);
  }

  lemma {:induction false} ParseOfEvents(lines: seq<Bytes>)
    requires forall line :: line in lines ==> NEWLINE !in line
    ensures Parse(Lines(Events(lines))) == Delivered(lines)
  {
    if lines != [] {
      ParseOfEvent(lines[0], Events(lines[1..]));
      ParseOfEvents(lines[1..]);
    }
  }

  predicate Unharmed(line: Bytes) {
    |line| <= LONGEST_LINE && !EndsInCR(line)
  }

  predicate AllUnharmed(lines: seq<Bytes>) {
    forall i :: 0 <= i < |lines| ==> Unharmed(lines[i])
  }

  lemma SameLines(line: Bytes, rest: seq<Bytes>, lines: seq<Bytes>)
    requires lines != []
    ensures [line] + rest == lines <==> line == lines[0] && rest == lines[1..]
  {
    assert ([line] + rest)[0] == line && ([line] + rest)[1..] == rest;
    assert lines == [lines[0]] + lines[1..];
  }

  lemma {:induction false} DeliveredIff(lines: seq<Bytes>)
    ensures Delivered(lines) == Parsed(lines, false) <==> AllUnharmed(lines)
  {
    if lines != [] {
      var rest := Delivered(lines[1..]);
      DeliveredIff(lines[1..]);
      assert AllUnharmed(lines) <==> Unharmed(lines[0]) && AllUnharmed(lines[1..]) by {
        assert forall i :: 0 < i < |lines| ==> lines[i] == lines[1..][i - 1];
        assert forall i :: 0 <= i < |lines[1..]| ==> lines[1..][i] == lines[i + 1];
      }
      if |lines[0]| > LONGEST_LINE {
        assert !Unharmed(lines[0]);
      } else {
        SameLines(DropCR(lines[0]), rest.emitted, lines);
        assert Delivered(lines) == After([DropCR(lines[0])], rest);
        assert Delivered(lines) == Parsed(lines, false) <==>
          !rest.tooLong && DropCR(lines[0]) == lines[0] && rest.emitted == lines[1..];
        assert rest == Parsed(lines[1..], false) <==> !rest.tooLong && rest.emitted == lines[1..];
        assert EndsInCR(lines[0]) ==> |DropCR(lines[0])| < |lines[0]|;
      }
    }
  }

  /**
   * The client reads back exactly the lines of a log, without an error, if and only if no line ends in a carriage
   * return and every line is short enough.
   */
  lemma RoundTripIff(log: Bytes)
    ensures Parse(Lines(Printed(log))) == Parsed(Lines(log), false) <==> AllUnharmed(Lines(log))
  {
    LinesHoldNoNewline(log);
    ParseOfEvents(Lines(log));
    DeliveredIff(Lines(log));
  }

  /** The log "a\r" comes back as "a". */
  lemma CarriageReturnIsLost()
    ensures Lines([97, 13]) == [[97, 13]] && Parse(Lines(Printed([97, 13]))) == Parsed([[97]], false)
  {
    var log: Bytes := [97, 13];
    assert Cut(log) == |log| && Lines(log) == [log];
    LinesHoldNoNewline(log);
    ParseOfEvents([log]);
    assert DropCR(log) == [97] && [log][1..] == [] && [[97]] + [] == [[97]];
  }

  /** Of a line that is one byte too long, nothing comes back but an error. */
  lemma LongLineIsLost(line: Bytes)
    requires |line| == LONGEST_LINE + 1 && NEWLINE !in line
    ensures Lines(line) == [line] && Parse(Lines(Printed(line))) == Parsed([], true)
  {
    assert forall k :: 0 <= k < |line| ==> line[k] in line;
    assert Cut(line) == |line|;
    ParseOfEvents([line]);
  }

  /** The whole way of a log, however it arrives and whether or not it has ended: reader, events, client. */
  method Relay(script: seq<Read>) returns (emitted: seq<Bytes>, tooLong: bool)
    ensures emitted == Lines(Visible(script)) && !tooLong <==> AllUnharmed(Lines(Visible(script)))
  {
    var stream := new EventStream();
    var failed := stream.StreamSSELogReader(script, false);
    assert stream.written == Printed(Visible(script));
    emitted, tooLong := ReadSSEData(stream.written);
    RoundTripIff(Visible(script));
  }
}
