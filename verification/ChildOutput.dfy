/**
 The output side of a child process (src/childRuntime.ts, lines 421-477 and 999-1066): chunks are framed into
 lines, lines become messages, and messages are read page by page.
 */
module ChildOutputs {
  import opened Outcomes

  datatype Stream = Stdout | Stderr

  /** `raw` is a line without its end; the parsed form and the time of arrival are left out. */
  datatype Message = Message(raw: string, stream: Stream, sequence: nat)

  /** What is buffered of an unfinished line on each stream, and the messages recorded. */
  datatype Output = Output(stdout: string, stderr: string, messages: seq<Message>)

  datatype PageError = BadAfter | BadLimit | NoStreams

  datatype Page = Page(total: nat, hasMore: bool, nextCursor: Option<int>, messages: seq<Message>)

  // ---------------------------------------------------------------------------------------------
  // Framing
  // ---------------------------------------------------------------------------------------------

  datatype Framed = Framed(lines: seq<string>, rest: string)

  /** Complete lines of a text, and what follows the last newline. */
  function Frame(text: string): Framed {
    if text == "" then Framed([], "")
    else
      var f, last := Frame(text[..|text| - 1]), text[|text| - 1];
      if last == '\n' then Framed(f.lines + [f.rest], "") else Framed(f.lines, f.rest + [last])
  }

  function BufferOf(o: Output, stream: Stream): string {
    if stream == Stdout then o.stdout else o.stderr
  }

  function WithBuffer(o: Output, stream: Stream, text: string): Output {
    if stream == Stdout then o.(stdout := text) else o.(stderr := text)
  }

  /** One carriage return at the end is dropped. */
  function Clean(line: string): string {
    if line != "" && line[|line| - 1] == '\r' then line[..|line| - 1] else line
  }

  /** Nothing is left after trimming. */
  predicate Blank(line: string) {
    forall i :: 0 <= i < |line| ==> line[i] == ' ' || '\t' <= line[i] <= '\r'
  }

  function Record(messages: seq<Message>, stream: Stream, line: string): seq<Message> {
    if Blank(Clean(line)) then messages else messages + [Message(Clean(line), stream, |messages|)]
  }

  function RecordAll(messages: seq<Message>, stream: Stream, lines: seq<string>): seq<Message> {
    if lines == [] then messages
      else Record(RecordAll(messages, stream, lines[..|lines| - 1]), stream, lines[|lines| - 1])
  }

  function ConsumeChunk(o: Output, stream: Stream, chunk: string): Output {
    var f := Frame(BufferOf(o, stream) + chunk);
    WithBuffer(o, stream, f.rest).(messages := RecordAll(o.messages, stream, f.lines))
  }

  function FlushStream(o: Output, stream: Stream): Output {
    var rest := BufferOf(o, stream);
    if rest == "" then o else WithBuffer(o, stream, "").(messages := Record(o.messages, stream, rest))
  }

  // ---------------------------------------------------------------------------------------------
  // Paging
  // ---------------------------------------------------------------------------------------------

  predicate Wanted(m: Message, streams: Option<set<Stream>>) {
    streams.Some? ==> m.stream in streams.value
  }

  /** The wanted messages from position `from` on. */
  function Matching(messages: seq<Message>, from: nat, streams: Option<set<Stream>>): seq<Message>
    decreases |messages| - from
  {
    if from >= |messages| then []
    else (if Wanted(messages[from], streams) then [messages[from]] else []) + Matching(messages, from + 1, streams)
  }

  /** The first `limit` wanted messages after `after`, and whether there are more. */
  function PageAfter(messages: seq<Message>, after: int, limit: nat, streams: Option<set<Stream>>): Page
    requires after >= -1
  {
    var found := Matching(messages, after + 1, streams);
    var slice := if |found| <= limit then found else found[..limit];
    Page(|messages|, |found| > limit,
      if slice != [] then Some(slice[|slice| - 1].sequence) else if after >= 0 then Some(after) else None, slice)
  }

  /** Each message carries its position. */
  predicate Numbered(messages: seq<Message>) {
    forall i :: 0 <= i < |messages| ==> messages[i].sequence == i
  }

  function PageSize(limit: Option<int>): int {
    var asked := limit.GetOr(50);
    if asked > 200 then 200 else asked
  }

  // ---------------------------------------------------------------------------------------------
  // The runtime
  // ---------------------------------------------------------------------------------------------

  class ChildRuntime {
    var stdoutBuffer: string
    var stderrBuffer: string
    var messages: seq<Message>

    constructor ()
      ensures Abs() == Output("", "", []) && Numbered(messages)
    {
      stdoutBuffer, stderrBuffer, messages := "", "", [];
    }

    function Abs(): Output
      reads this
    {
      Output(stdoutBuffer, stderrBuffer, messages)
    }

    method ConsumeStdout(chunk: string)
      requires Numbered(messages)
      modifies this
      ensures Numbered(messages) && Abs() == ConsumeChunk(old(Abs()), Stdout, chunk)
    {
      hide Record, Frame;
      stdoutBuffer := stdoutBuffer + chunk;
      ghost var text, before := stdoutBuffer, messages;
      ghost var done: seq<string> := [];
      var newlineIndex := IndexOfNewline(stdoutBuffer);
      while newlineIndex != -1
        invariant -1 <= newlineIndex < |stdoutBuffer|
        invariant newlineIndex == -1 ==> '\n' !in stdoutBuffer
        invariant newlineIndex >= 0 ==> stdoutBuffer[newlineIndex] == '\n' && '\n' !in stdoutBuffer[..newlineIndex]
        invariant Frame(text) == Framed(done + Frame(stdoutBuffer).lines, Frame(stdoutBuffer).rest)
        invariant messages == RecordAll(before, Stdout, done) && Numbered(messages)
        invariant stderrBuffer == old(stderrBuffer)
        decreases |stdoutBuffer|
      {
        var rawLine := stdoutBuffer[..newlineIndex];
        FrameFirst(stdoutBuffer, newlineIndex);
        stdoutBuffer := stdoutBuffer[newlineIndex + 1..];
        assert (done + [rawLine])[..|done|] == done;
        RecordLine(Stdout, rawLine);
        assert done + [rawLine] + Frame(stdoutBuffer).lines == done + ([rawLine] + Frame(stdoutBuffer).lines);
        done := done + [rawLine];
        newlineIndex := IndexOfNewline(stdoutBuffer);
      }
      FrameUnfinished(stdoutBuffer);
      assert done + [] == done;
    }

    method FlushStdout()
      requires Numbered(messages)
      modifies this
      ensures Numbered(messages) && Abs() == FlushStream(old(Abs()), Stdout)
    {
      hide Record;
      if |stdoutBuffer| > 0 {
        RecordLine(Stdout, stdoutBuffer);
        stdoutBuffer := "";
      }
    }

    method ConsumeStderr(chunk: string)
      requires Numbered(messages)
      modifies this
      ensures Numbered(messages) && Abs() == ConsumeChunk(old(Abs()), Stderr, chunk)
    {
      hide Record, Frame;
      stderrBuffer := stderrBuffer + chunk;
      ghost var text, before := stderrBuffer, messages;
      ghost var done: seq<string> := [];
      var newlineIndex := IndexOfNewline(stderrBuffer);
      while newlineIndex != -1
        invariant -1 <= newlineIndex < |stderrBuffer|
        invariant newlineIndex == -1 ==> '\n' !in stderrBuffer
        invariant newlineIndex >= 0 ==> stderrBuffer[newlineIndex] == '\n' && '\n' !in stderrBuffer[..newlineIndex]
        invariant Frame(text) == Framed(done + Frame(stderrBuffer).lines, Frame(stderrBuffer).rest)
        invariant messages == RecordAll(before, Stderr, done) && Numbered(messages)
        invariant stdoutBuffer == old(stdoutBuffer)
        decreases |stderrBuffer|
      {
        var rawLine := stderrBuffer[..newlineIndex];
        FrameFirst(stderrBuffer, newlineIndex);
        stderrBuffer := stderrBuffer[newlineIndex + 1..];
        assert (done + [rawLine])[..|done|] == done;
        RecordLine(Stderr, rawLine);
        assert done + [rawLine] + Frame(stderrBuffer).lines == done + ([rawLine] + Frame(stderrBuffer).lines);
        done := done + [rawLine];
        newlineIndex := IndexOfNewline(stderrBuffer);
      }
      FrameUnfinished(stderrBuffer);
      assert done + [] == done;
    }

    method FlushStderr()
      requires Numbered(messages)
      modifies this
      ensures Numbered(messages) && Abs() == FlushStream(old(Abs()), Stderr)
    {
      hide Record;
      if |stderrBuffer| > 0 {
        RecordLine(Stderr, stderrBuffer);
        stderrBuffer := "";
      }
    }

    method RecordLine(stream: Stream, line: string)
      requires Numbered(messages)
      modifies this`messages
      ensures Numbered(messages) && messages == Record(old(messages), stream, line)
    {
      var cleaned := Clean(line);
      if Blank(cleaned) {
        return;
      }
      messages := messages + [Message(cleaned, stream, |messages|)];
    }

    /** Reading flushes both streams first, errors or not. */
    method StreamMessages(afterSequence: Option<int>, pageLimit: Option<int>, streams: Option<set<Stream>>)
      returns (r: Result<Page, PageError>)
      requires Numbered(messages)
      modifies this
      ensures Numbered(messages) && Abs() == ReadNow(old(Abs()))
      ensures r.Ok? <==>
                afterSequence.GetOr(-1) >= -1 && pageLimit.GetOr(50) > 0 && streams != Some({})
      ensures r.Ok? ==> r.value == PageAfter(messages, afterSequence.GetOr(-1), PageSize(pageLimit), streams)
    {
      hide Matching, PageAfter;
      FlushStdout();
      FlushStderr();
      ghost var flushed := Abs();
      var totalMessages := |messages|;
      var after := afterSequence.GetOr(-1);
      if after < -1 {
        return Err(BadAfter);
      }
      if pageLimit.GetOr(50) <= 0 {
        return Err(BadLimit);
      }
      var limit := PageSize(pageLimit);
      if streams.Some? && streams.value == {} {
        return Err(NoStreams);
      }
      var slice, lastSequence := FillPage(after, limit, streams);
      var hasMore := false;
      if lastSequence < totalMessages - 1 {
        var index := lastSequence + 1;
        while index < totalMessages
          invariant lastSequence + 1 <= index <= totalMessages && !hasMore && Abs() == flushed
          invariant Matching(messages, lastSequence + 1, streams) == Matching(messages, index, streams)
        {
          MatchingFrom(messages, index, streams);
          if Wanted(messages[index], streams) {
            hasMore := true;
            break;
          }
          index := index + 1;
        }
        MatchingFrom(messages, index, streams);
      } else {
        MatchingFrom(messages, lastSequence + 1, streams);
      }
      PageOf(messages, after, limit, streams, slice, Matching(messages, lastSequence + 1, streams));
      var cursor := if |slice| > 0 then Some(slice[|slice| - 1].sequence)
        else if lastSequence >= 0 then Some(lastSequence) else None;
      return Ok(Page(totalMessages, hasMore, cursor, slice));
    }

    /** The first loop of `streamMessages`; what it did not take comes after `lastSequence`. */
    method FillPage(after: int, limit: nat, streams: Option<set<Stream>>)
      returns (slice: seq<Message>, lastSequence: int)
      requires Numbered(messages) && after >= -1 && limit > 0
      ensures lastSequence == (if slice == [] then after else slice[|slice| - 1].sequence) && lastSequence >= after
      ensures |slice| <= limit
      ensures Matching(messages, after + 1, streams) == slice + Matching(messages, lastSequence + 1, streams)
      ensures |slice| < limit ==> Matching(messages, lastSequence + 1, streams) == []
    {
      hide Matching;
      slice, lastSequence := [], after;
      ghost var found := Matching(messages, after + 1, streams);
      var index := after + 1;
      while index < |messages|
        invariant after <= lastSequence < index && |slice| < limit
        invariant lastSequence == if slice == [] then after else slice[|slice| - 1].sequence
        invariant found == slice + Matching(messages, index, streams)
        invariant Matching(messages, lastSequence + 1, streams) == Matching(messages, index, streams)
      {
        MatchingFrom(messages, index, streams);
        var candidate := messages[index];
        ghost var rest := Matching(messages, index + 1, streams);
        if Wanted(candidate, streams) {
          assert slice + ([candidate] + rest) == (slice + [candidate]) + rest;
          slice := slice + [candidate];
          lastSequence := candidate.sequence;
          if |slice| >= limit {
            return;
          }
        }
        index := index + 1;
      }
      MatchingFrom(messages, index, streams);
    }
  }

  lemma MatchingFrom(messages: seq<Message>, i: nat, streams: Option<set<Stream>>)
    ensures i >= |messages| ==> Matching(messages, i, streams) == []
    ensures i < |messages| ==>
              Matching(messages, i, streams) ==
              (if Wanted(messages[i], streams) then [messages[i]] else []) + Matching(messages, i + 1, streams)
  {
  }

  lemma PageOf(messages: seq<Message>, after: int, limit: nat, streams: Option<set<Stream>>, slice: seq<Message>,
    rest: seq<Message>)
    requires after >= -1 && Matching(messages, after + 1, streams) == slice + rest
    requires |slice| <= limit && (|slice| < limit ==> rest == [])
    ensures PageAfter(messages, after, limit, streams) ==
              Page(|messages|, rest != [],
                if slice != [] then Some(slice[|slice| - 1].sequence)
                else if after >= 0 then Some(after)
                else None, slice)
  {
    hide Matching;
    var found := slice + rest;
    assert found[..|slice|] == slice;
    if rest == [] {
      assert found == slice;
    }
  }

  method IndexOfNewline(text: string) returns (index: int)
    ensures -1 <= index < |text|
    ensures index == -1 ==> '\n' !in text
    ensures index >= 0 ==> text[index] == '\n' && '\n' !in text[..index]
  {
    for n := 0 to |text|
      invariant '\n' !in text[..n]
    {
      if text[n] == '\n' {
        return n;
      }
    }
    return -1;
  }

  // ---------------------------------------------------------------------------------------------
  // Chunks do not matter
  // ---------------------------------------------------------------------------------------------

  lemma {:induction false} FrameUnfinished(text: string)
    requires '\n' !in text
    ensures Frame(text) == Framed([], text)
  {
    if text != "" {
      assert text[|text| - 1] in text;
      FrameUnfinished(text[..|text| - 1]);
    }
  }

  /** Framing can stop anywhere and go on with what is left over. */
  lemma {:induction false} FrameResumes(a: string, b: string)
    ensures Frame(a + b) == Framed(Frame(a).lines + Frame(Frame(a).rest + b).lines, Frame(Frame(a).rest + b).rest)
    ensures '\n' !in Frame(a).rest
    decreases |b|, |a|
  {
    RestIsUnfinished(a);
    var rest := Frame(a).rest;
    if b == "" {
      assert a + b == a && rest + b == rest;
      FrameUnfinished(rest);
    } else {
      var front, last := b[..|b| - 1], b[|b| - 1];
      FrameResumes(a, front);
      assert (a + b)[..|a + b| - 1] == a + front && (a + b)[|a + b| - 1] == last;
      assert (rest + b)[..|rest + b| - 1] == rest + front && (rest + b)[|rest + b| - 1] == last;
    }
  }

  lemma {:induction false} RestIsUnfinished(a: string)
    ensures '\n' !in Frame(a).rest
  {
    if a != "" {
      RestIsUnfinished(a[..|a| - 1]);
    }
  }

  lemma FrameFirst(text: string, newline: nat)
    requires newline < |text| && text[newline] == '\n' && '\n' !in text[..newline]
    ensures var f := Frame(text[newline + 1..]);
            Frame(text) == Framed([text[..newline]] + f.lines, f.rest)
  {
    var line, rest := text[..newline], text[newline + 1..];
    assert text[..newline + 1][..newline] == line;
    assert text == text[..newline + 1] + rest;
    FrameUnfinished(line);
    assert Frame(text[..newline + 1]) == Framed([line], "");
    FrameResumes(text[..newline + 1], rest);
    assert "" + rest == rest;
  }

  /** Lines written out, each with its newline. */
  function Written(lines: seq<string>): string {
    if lines == [] then "" else Written(lines[..|lines| - 1]) + lines[|lines| - 1] + "\n"
  }

  ghost predicate OneLineEach(f: Framed) {
    '\n' !in f.rest && forall i :: 0 <= i < |f.lines| ==> '\n' !in f.lines[i]
  }

  lemma {:induction false} FrameCutsAtNewlines(text: string)
    ensures OneLineEach(Frame(text)) && Written(Frame(text).lines) + Frame(text).rest == text
  {
    if text != "" {
      var front, last := text[..|text| - 1], text[|text| - 1];
      FrameCutsAtNewlines(front);
      var f := Frame(front);
      assert text == front + [last];
      if last == '\n' {
        assert (f.lines + [f.rest])[..|f.lines|] == f.lines;
        assert Written(f.lines) + f.rest + "\n" == text;
      }
    }
  }

  lemma {:induction false} WrittenIsFramed(f: Framed)
    requires OneLineEach(f)
    ensures Frame(Written(f.lines) + f.rest) == f
    decreases |f.lines|
  {
    if f.lines == [] {
      assert "" + f.rest == f.rest;
      FrameUnfinished(f.rest);
    } else {
      var front, last := f.lines[..|f.lines| - 1], f.lines[|f.lines| - 1];
      WrittenIsFramed(Framed(front, last));
      var text := Written(front) + last;
      assert (text + "\n")[..|text|] == text;
      assert front + [last] == f.lines;
      FrameResumes(text + "\n", f.rest);
      FrameUnfinished(f.rest);
      assert "" + f.rest == f.rest && f.lines + [] == f.lines;
      assert Written(f.lines) + f.rest == text + "\n" + f.rest;
    }
  }

  /** Framing is the one way to cut a text at its newlines. */
  lemma FramedExactly(text: string, f: Framed)
    ensures Frame(text) == f <==> OneLineEach(f) && Written(f.lines) + f.rest == text
  {
    FrameCutsAtNewlines(text);
    if OneLineEach(f) {
      WrittenIsFramed(f);
    }
  }

  /** Raw lines recorded from one stream, in order. */
  function Raws(messages: seq<Message>, stream: Stream): seq<string> {
    if messages == [] then []
    else
      var front, last := Raws(messages[..|messages| - 1], stream), messages[|messages| - 1];
      if last.stream == stream then front + [last.raw] else front
  }

  /** What recording keeps of some lines. */
  function Kept(lines: seq<string>): seq<string> {
    if lines == [] then []
    else
      var front, last := Kept(lines[..|lines| - 1]), Clean(lines[|lines| - 1]);
      if Blank(last) then front else front + [last]
  }

  lemma {:induction false} KeptOfBoth(a: seq<string>, b: seq<string>)
    ensures Kept(a + b) == Kept(a) + Kept(b)
  {
    hide Blank, Clean;
    if b == [] {
      assert a + b == a;
    } else {
      KeptOfBoth(a, b[..|b| - 1]);
      assert (a + b)[..|a + b| - 1] == a + b[..|b| - 1];
    }
  }

  lemma {:induction false} RecordedRaws(messages: seq<Message>, stream: Stream, lines: seq<string>, s: Stream)
    ensures Raws(RecordAll(messages, stream, lines), s) == Raws(messages, s) + (if s == stream then Kept(lines) else [])
  {
    hide Blank, Clean;
    if lines != [] {
      RecordedRaws(messages, stream, lines[..|lines| - 1], s);
      var front := RecordAll(messages, stream, lines[..|lines| - 1]);
      var all := RecordAll(messages, stream, lines);
      if all != front {
        assert all[..|all| - 1] == front;
      }
    }
  }

  /** What happens to the runtime: a chunk arrives on a stream, or somebody reads the messages. */
  datatype Happening = Arrival(stream: Stream, chunk: string) | Read

  /** Reading flushes both streams. */
  function ReadNow(o: Output): Output {
    FlushStream(FlushStream(o, Stdout), Stderr)
  }

  function Happened(history: seq<Happening>): Output {
    if history == [] then Output("", "", [])
    else
      var before := Happened(history[..|history| - 1]);
      match history[|history| - 1]
      case Arrival(stream, chunk) => ConsumeChunk(before, stream, chunk)
      case Read => ReadNow(before)
  }

  /** What arrived on a stream, cut where somebody read. */
  function Pieces(history: seq<Happening>, s: Stream): (pieces: seq<string>)
    ensures pieces != []
  {
    if history == [] then [""]
    else
      var front := Pieces(history[..|history| - 1], s);
      match history[|history| - 1]
      case Read => front + [""]
      case Arrival(stream, chunk) =>
        if stream == s then front[..|front| - 1] + [front[|front| - 1] + chunk] else front
  }

  /** All that arrived on a stream. */
  function TextOf(history: seq<Happening>, s: Stream): string {
    if history == [] then ""
    else
      var front, last := TextOf(history[..|history| - 1], s), history[|history| - 1];
      if last.Arrival? && last.stream == s then front + last.chunk else front
  }

  /** The lines of a finished text; the last need not end in a newline. */
  function Lines(text: string): seq<string> {
    Frame(text).lines + (if Frame(text).rest == "" then [] else [Frame(text).rest])
  }

  function LinesOfEach(pieces: seq<string>): seq<string> {
    if pieces == [] then [] else LinesOfEach(pieces[..|pieces| - 1]) + Lines(pieces[|pieces| - 1])
  }

  lemma NothingKept(s: Stream)
    ensures Kept([]) == [] && Raws([], s) == []
  {
  }

  /** The last piece is framed so far, the others are finished. */
  ghost predicate Reflects(o: Output, pieces: seq<string>, s: Stream)
    requires pieces != []
  {
    var front, last := pieces[..|pieces| - 1], pieces[|pieces| - 1];
    && BufferOf(o, s) == Frame(last).rest
    && Raws(o.messages, s) == Kept(LinesOfEach(front)) + Kept(Frame(last).lines)
  }

  lemma ArrivalReflects(o: Output, pieces: seq<string>, s: Stream, stream: Stream, chunk: string)
    requires pieces != [] && Reflects(o, pieces, s)
    ensures var last := pieces[|pieces| - 1];
            Reflects(ConsumeChunk(o, stream, chunk),
              if stream == s then pieces[..|pieces| - 1] + [last + chunk] else pieces, s)
  {
    hide Frame, Kept, RecordAll, Raws, LinesOfEach;
    var front, last := pieces[..|pieces| - 1], pieces[|pieces| - 1];
    var f := Frame(BufferOf(o, stream) + chunk);
    RecordedRaws(o.messages, stream, f.lines, s);
    if s == stream {
      FrameResumes(last, chunk);
      KeptOfBoth(Frame(last).lines, f.lines);
      assert (front + [last + chunk])[..|front|] == front;
    }
  }

  lemma ReadReflects(o: Output, pieces: seq<string>, s: Stream)
    requires pieces != [] && Reflects(o, pieces, s)
    ensures Reflects(ReadNow(o), pieces + [""], s)
    ensures Raws(ReadNow(o).messages, s) == Kept(LinesOfEach(pieces))
  {
    hide Frame, Kept, Raws, FlushStream;
    var front, last := pieces[..|pieces| - 1], pieces[|pieces| - 1];
    FlushedRaws(o, Stdout, s);
    FlushedRaws(FlushStream(o, Stdout), Stderr, s);
    KeptOfBoth(Frame(last).lines, if Frame(last).rest == "" then [] else [Frame(last).rest]);
    KeptOfBoth(LinesOfEach(front), Lines(last));
    NothingKept(s);
    FrameUnfinished("");
    assert (pieces + [""])[..|pieces|] == pieces;
  }

  lemma {:induction false} HistoryReflects(history: seq<Happening>, s: Stream)
    ensures Reflects(Happened(history), Pieces(history, s), s)
  {
    hide Reflects, ConsumeChunk, ReadNow;
    if history == [] {
      assert Reflects(Output("", "", []), [""], s) by { NothingReflects(s); }
    } else {
      var front := history[..|history| - 1];
      HistoryReflects(front, s);
      match history[|history| - 1]
      case Arrival(stream, chunk) => ArrivalReflects(Happened(front), Pieces(front, s), s, stream, chunk);
      case Read => ReadReflects(Happened(front), Pieces(front, s), s);
    }
  }

  lemma NothingReflects(s: Stream)
    ensures Reflects(Output("", "", []), [""], s)
  {
    assert [""][..0] == [];
  }

  /**
   For any chunks and any reads between them, what a final read finds recorded from a stream is what is kept of the
   lines of its pieces: each read ends a line. How a piece was cut into chunks, and what the other stream did, does
   not matter.
   */
  lemma ReadsEndLines(history: seq<Happening>, s: Stream)
    ensures Raws(ReadNow(Happened(history)).messages, s) == Kept(LinesOfEach(Pieces(history, s)))
  {
    hide Kept, Raws, Happened, Pieces, LinesOfEach, ReadNow;
    HistoryReflects(history, s);
    ReadReflects(Happened(history), Pieces(history, s), s);
  }

  /** Every read finds the buffer of the stream empty. */
  predicate ReadsBetweenLines(history: seq<Happening>, s: Stream) {
    history == [] || (
      && ReadsBetweenLines(history[..|history| - 1], s)
      && (history[|history| - 1].Read? ==> BufferOf(Happened(history[..|history| - 1]), s) == ""))
  }

  /** The pieces have the lines of the text so far. */
  ghost predicate SameLines(text: string, pieces: seq<string>)
    requires pieces != []
  {
    var front, last := pieces[..|pieces| - 1], pieces[|pieces| - 1];
    Frame(text).lines == LinesOfEach(front) + Frame(last).lines && Frame(text).rest == Frame(last).rest
  }

  lemma ChunkKeepsLines(text: string, pieces: seq<string>, chunk: string)
    requires pieces != [] && SameLines(text, pieces)
    ensures SameLines(text + chunk, pieces[..|pieces| - 1] + [pieces[|pieces| - 1] + chunk])
  {
    hide Frame, LinesOfEach;
    var front, last := pieces[..|pieces| - 1], pieces[|pieces| - 1];
    FrameResumes(text, chunk);
    FrameResumes(last, chunk);
    assert (front + [last + chunk])[..|front|] == front;
    var f := Frame(Frame(last).rest + chunk);
    assert LinesOfEach(front) + Frame(last).lines + f.lines == LinesOfEach(front) + (Frame(last).lines + f.lines);
  }

  lemma ReadKeepsLines(text: string, pieces: seq<string>)
    requires pieces != [] && SameLines(text, pieces) && Frame(pieces[|pieces| - 1]).rest == ""
    ensures SameLines(text, pieces + [""])
  {
    hide Frame;
    var front, last := pieces[..|pieces| - 1], pieces[|pieces| - 1];
    FrameUnfinished("");
    assert (pieces + [""])[..|pieces|] == pieces;
    assert Lines(last) == Frame(last).lines;
    assert LinesOfEach(pieces) + [] == LinesOfEach(front) + Frame(last).lines;
  }

  /** Pieces cut between lines have the lines of the whole text. */
  lemma {:induction false} PiecesJoin(history: seq<Happening>, s: Stream)
    requires ReadsBetweenLines(history, s)
    ensures SameLines(TextOf(history, s), Pieces(history, s))
  {
    hide Frame, Happened, SameLines, LinesOfEach;
    if history == [] {
      assert SameLines("", [""]) by { NoLines(); }
    } else {
      var before := history[..|history| - 1];
      PiecesJoin(before, s);
      match history[|history| - 1]
      case Arrival(stream, chunk) =>
        if stream == s {
          ChunkKeepsLines(TextOf(before, s), Pieces(before, s), chunk);
        }
      case Read =>
        HistoryReflects(before, s);
        assert Reflects(Happened(before), Pieces(before, s), s);
        ReadKeepsLines(TextOf(before, s), Pieces(before, s));
    }
  }

  lemma NoLines()
    ensures SameLines("", [""])
  {
    assert [""][..0] == [];
  }

  /**
   Read only between lines, and at the end, what is recorded from a stream depends on nothing but its text in
   sequence, however it was cut into chunks.
   */
  lemma ChunkingDoesNotMatter(history: seq<Happening>, s: Stream)
    requires ReadsBetweenLines(history, s)
    ensures Raws(ReadNow(Happened(history)).messages, s) == Kept(Lines(TextOf(history, s)))
  {
    hide Frame, Kept, Raws, Happened, ReadNow, ReadsBetweenLines, TextOf;
    ReadsEndLines(history, s);
    PiecesJoin(history, s);
    var pieces := Pieces(history, s);
    var front, last := pieces[..|pieces| - 1], pieces[|pieces| - 1];
    var rest := if Frame(last).rest == "" then [] else [Frame(last).rest];
    assert LinesOfEach(pieces) == LinesOfEach(front) + (Frame(last).lines + rest);
    assert Lines(TextOf(history, s)) == (LinesOfEach(front) + Frame(last).lines) + rest;
    assert Lines(TextOf(history, s)) == LinesOfEach(pieces);
  }

  lemma FlushedRaws(o: Output, stream: Stream, s: Stream)
    ensures var o' := FlushStream(o, stream);
            var rest := BufferOf(o, stream);
            && Raws(o'.messages, s) == Raws(o.messages, s) + (if s == stream && rest != "" then Kept([rest]) else [])
            && BufferOf(o', s) == (if s == stream then "" else BufferOf(o, s))
  {
    hide Blank, Clean;
    var rest := BufferOf(o, stream);
    if rest != "" {
      RecordedRaws(o.messages, stream, [rest], s);
      assert [rest][..0] == [];
    }
  }

  lemma ReadRaws(o: Output, s: Stream)
    ensures BufferOf(ReadNow(o), s) == ""
    ensures Raws(ReadNow(o).messages, s) ==
      Raws(o.messages, s) + (if BufferOf(o, s) == "" then [] else Kept([BufferOf(o, s)]))
  {
    hide Raws, Kept, FlushStream;
    FlushedRaws(o, Stdout, s);
    FlushedRaws(FlushStream(o, Stdout), Stderr, s);
    var once := Raws(FlushStream(o, Stdout).messages, s);
    assert once + [] == once && Raws(o.messages, s) + [] == Raws(o.messages, s);
  }

  lemma ConsumedRaws(o: Output, s: Stream, chunk: string)
    ensures Raws(ConsumeChunk(o, s, chunk).messages, s) ==
      Raws(o.messages, s) + Kept(Frame(BufferOf(o, s) + chunk).lines)
  {
    hide Raws, Kept, Frame, RecordAll;
    RecordedRaws(o.messages, s, Frame(BufferOf(o, s) + chunk).lines, s);
  }

  /**
   Whatever has been recorded so far, reading makes no difference to what a stream records from its next chunk,
   for every next chunk, if and only if nothing of an unfinished line is buffered.
   */
  lemma ReadIsHarmlessIff(o: Output, s: Stream)
    requires '\n' !in BufferOf(o, s)
    ensures BufferOf(o, s) == "" <==>
              forall c :: Raws(ConsumeChunk(ReadNow(o), s, c).messages, s) == Raws(ConsumeChunk(o, s, c).messages, s)
  {
    hide Raws, Kept, Frame, ConsumeChunk, ReadNow;
    ReadRaws(o, s);
    var rest := BufferOf(o, s);
    if rest == "" {
      forall c ensures Raws(ConsumeChunk(ReadNow(o), s, c).messages, s) == Raws(ConsumeChunk(o, s, c).messages, s) {
        ConsumedRaws(ReadNow(o), s, c);
        ConsumedRaws(o, s, c);
      }
    } else {
      var c := ReadShows(o, s);
    }
  }

  /** A chunk that tells whether a partial line was read: none at all, or a word that ends the line. */
  lemma ReadShows(o: Output, s: Stream) returns (c: string)
    requires BufferOf(o, s) != "" && '\n' !in BufferOf(o, s)
    ensures Raws(ConsumeChunk(ReadNow(o), s, c).messages, s) != Raws(ConsumeChunk(o, s, c).messages, s)
  {
    hide Raws, Kept, Frame, ConsumeChunk, ReadNow;
    var rest := BufferOf(o, s);
    ReadRaws(o, s);
    NothingKept(s);
    if Kept([rest]) != [] {
      c := "";
      assert rest + "" == rest && "" + c == "";
      FrameUnfinished(rest);
      FrameUnfinished("");
      assert Kept([rest]) + [] == Kept([rest]);
    } else {
      c := "x\n";
      assert rest + "x\n" == (rest + "x") + "\n" && "" + "x\n" == "x" + "\n";
      OneLine(rest + "x");
      OneLine("x");
      KeptWithWord(rest);
      KeptWithWord("");
      assert "" + "x" == "x" && [] + ["x"] == ["x"];
      assert |rest + "x"| > |"x"| && ["x"][0] != [rest + "x"][0];
    }
    ConsumedRaws(ReadNow(o), s, c);
    ConsumedRaws(o, s, c);
    var before, read, unread := Raws(o.messages, s), Kept(Frame("" + c).lines), Kept(Frame(rest + c).lines);
    assert Raws(ConsumeChunk(ReadNow(o), s, c).messages, s) == before + (Kept([rest]) + read);
    assert Kept([rest]) + read != unread;
    LeftCancels(before, Kept([rest]) + read, unread);
  }

  lemma LeftCancels(a: seq<string>, b: seq<string>, c: seq<string>)
    requires b != c
    ensures a + b != a + c
  {
    assert (a + b)[|a|..] == b && (a + c)[|a|..] == c;
  }

  lemma KeptWithWord(line: string)
    ensures Kept([line + "x"]) == [line + "x"]
  {
    var word: string := line + "x";
    assert word[|word| - 1] == 'x';
    assert [word][..0] == [];
  }

  /** The chunk that ends the line shows it: the two parts of a line are recorded as two messages instead of one. */
  lemma ReadingCutsLines(a: string, b: string)
    requires '\n' !in a && '\n' !in b && '\r' !in a && '\r' !in b && !Blank(a) && !Blank(b)
    ensures Raws(Happened([Arrival(Stdout, a), Arrival(Stdout, b + "\n")]).messages, Stdout) == [a + b]
    ensures Raws(Happened([Arrival(Stdout, a), Read, Arrival(Stdout, b + "\n")]).messages, Stdout) == [a, b]
  {
    hide Raws, Kept, ConsumeChunk, ReadNow, Frame;
    var start := Output("", "", []);
    var h := [Arrival(Stdout, a), Read, Arrival(Stdout, b + "\n")];
    var g := [Arrival(Stdout, a), Arrival(Stdout, b + "\n")];
    assert h[..2] == [h[0], h[1]] && h[..2][..1] == [h[0]] && [h[0]][..0] == [] && g[..1] == [g[0]];
    var part := ConsumeChunk(start, Stdout, a);
    assert Happened([h[0]]) == ConsumeChunk(Happened([]), Stdout, a) == part;
    assert Happened(h[..2]) == ReadNow(Happened([h[0]])) == ReadNow(part);
    assert "" + a == a && "" + (b + "\n") == b + "\n" && a + (b + "\n") == (a + b) + "\n";
    FrameUnfinished(a);
    NothingKept(Stdout);
    ConsumedRaws(start, Stdout, a);
    assert part.stdout == a by { PartArrives(start, a); }
    ReadRaws(part, Stdout);
    OneLine(b);
    OneLine(a + b);
    assert !Blank(a + b) by {
      var i :| 0 <= i < |a| && !(a[i] == ' ' || '\t' <= a[i] <= '\r');
      assert (a + b)[i] == a[i];
    }
    KeptOne(a);
    KeptOne(b);
    KeptOne(a + b);
    ConsumedRaws(part, Stdout, b + "\n");
    ConsumedRaws(ReadNow(part), Stdout, b + "\n");
  }

  lemma PartArrives(o: Output, part: string)
    requires '\n' !in o.stdout && '\n' !in part
    ensures ConsumeChunk(o, Stdout, part) == o.(stdout := o.stdout + part)
  {
    FrameUnfinished(o.stdout + part);
  }

  lemma OneLine(line: string)
    requires '\n' !in line
    ensures Frame(line + "\n") == Framed([line], "")
  {
    FrameUnfinished(line);
    assert (line + "\n")[..|line|] == line;
  }

  lemma KeptOne(line: string)
    requires '\r' !in line && !Blank(line)
    ensures Kept([line]) == [line]
  {
    assert [line][..0] == [];
  }

  // ---------------------------------------------------------------------------------------------
  // Paging
  // ---------------------------------------------------------------------------------------------

  /** Matching messages stand after `from` and in order. */
  lemma {:induction false} MatchingIsOrdered(messages: seq<Message>, from: nat, streams: Option<set<Stream>>, k: nat)
    requires Numbered(messages) && k < |Matching(messages, from, streams)|
    ensures var found := Matching(messages, from, streams);
            && from <= found[k].sequence < |messages|
            && Matching(messages, found[k].sequence + 1, streams) == found[k + 1..]
    decreases |messages| - from
  {
    if Wanted(messages[from], streams) {
      if k > 0 {
        MatchingIsOrdered(messages, from + 1, streams, k - 1);
      }
    } else {
      MatchingIsOrdered(messages, from + 1, streams, k);
    }
  }

  /** All pages from `after` on, each starting at the cursor of the one before, until there are no more. */
  function Pages(messages: seq<Message>, after: int, limit: nat, streams: Option<set<Stream>>): seq<Message>
    requires after >= -1 && limit > 0 && Numbered(messages)
    decreases |messages| - after
  {
    var page := PageAfter(messages, after, limit, streams);
    if !page.hasMore then page.messages
    else
      MatchingIsOrdered(messages, after + 1, streams, limit - 1);
      page.messages + Pages(messages, page.nextCursor.value, limit, streams)
  }

  /** Paging ends, and shows every wanted message after the start exactly once and in order, whatever the page size. */
  lemma {:induction false} PagingShowsAll(messages: seq<Message>, after: int, limit: nat, streams: Option<set<Stream>>)
    requires after >= -1 && limit > 0 && Numbered(messages)
    ensures Pages(messages, after, limit, streams) == Matching(messages, after + 1, streams)
    decreases |messages| - after
  {
    hide Matching;
    var page := PageAfter(messages, after, limit, streams);
    var found := Matching(messages, after + 1, streams);
    if page.hasMore {
      MatchingIsOrdered(messages, after + 1, streams, limit - 1);
      var next := found[limit - 1].sequence;
      assert page.nextCursor == Some(next) && page.messages == found[..limit];
      PagingShowsAll(messages, next, limit, streams);
      assert found == found[..limit] + found[limit..];
    }
  }

  // ---------------------------------------------------------------------------------------------
  // Pages and lines told by what is in them
  // ---------------------------------------------------------------------------------------------

  /** A message asked for: after the cursor, and on one of the streams if any are given. */
  predicate AskedFor(messages: seq<Message>, i: int, after: int, streams: Option<set<Stream>>) {
    after < i && 0 <= i < |messages| && (streams == None || messages[i].stream in streams.value)
  }

  /** Messages asked for, each at its place. */
  ghost predicate Sound(messages: seq<Message>, found: seq<Message>, after: int, streams: Option<set<Stream>>) {
    forall k :: 0 <= k < |found| ==>
      AskedFor(messages, found[k].sequence, after, streams) && messages[found[k].sequence] == found[k]
  }

  ghost predicate Ordered(found: seq<Message>) {
    forall j, k :: 0 <= j < k < |found| ==> found[j].sequence < found[k].sequence
  }

  ghost predicate Complete(messages: seq<Message>, found: seq<Message>, after: int, streams: Option<set<Stream>>) {
    forall i :: AskedFor(messages, i, after, streams) ==> messages[i] in found
  }

  lemma {:induction false} MatchingInNumbers(messages: seq<Message>, from: nat, streams: Option<set<Stream>>)
    requires Numbered(messages)
    ensures var found := Matching(messages, from, streams);
            && Sound(messages, found, from - 1, streams) && Ordered(found)
            && Complete(messages, found, from - 1, streams)
    decreases |messages| - from
  {
    hide Sound, Ordered, Complete;
    if from < |messages| {
      MatchingInNumbers(messages, from + 1, streams);
      var rest := Matching(messages, from + 1, streams);
      if Wanted(messages[from], streams) {
        OneMoreFound(messages, rest, from, streams);
      } else {
        NotFound(messages, rest, from, streams);
        assert [] + rest == rest;
      }
    } else {
      assert Sound(messages, [], from - 1, streams) && Ordered([]) && Complete(messages, [], from - 1, streams) by {
        NothingFound(messages, from, streams);
      }
    }
  }

  lemma NothingFound(messages: seq<Message>, from: nat, streams: Option<set<Stream>>)
    requires from >= |messages|
    ensures Sound(messages, [], from - 1, streams) && Ordered([]) && Complete(messages, [], from - 1, streams)
  {
  }

  lemma OneMoreFound(messages: seq<Message>, rest: seq<Message>, from: nat, streams: Option<set<Stream>>)
    requires Numbered(messages) && from < |messages| && Wanted(messages[from], streams)
    requires Sound(messages, rest, from, streams) && Ordered(rest) && Complete(messages, rest, from, streams)
    ensures var found := [messages[from]] + rest;
            && Sound(messages, found, from - 1, streams) && Ordered(found)
            && Complete(messages, found, from - 1, streams)
  {
    var found := [messages[from]] + rest;
    AskedEarlier(messages, from, streams);
    assert AskedFor(messages, from, from - 1, streams);
    forall i | AskedFor(messages, i, from - 1, streams) ensures messages[i] in found {
      assert i == from || AskedFor(messages, i, from, streams);
    }
  }

  lemma NotFound(messages: seq<Message>, rest: seq<Message>, from: nat, streams: Option<set<Stream>>)
    requires from < |messages| && !Wanted(messages[from], streams)
    requires Sound(messages, rest, from, streams) && Complete(messages, rest, from, streams)
    ensures Sound(messages, rest, from - 1, streams) && Complete(messages, rest, from - 1, streams)
  {
    AskedEarlier(messages, from, streams);
    forall i | AskedFor(messages, i, from - 1, streams) ensures messages[i] in rest {
      assert AskedFor(messages, i, from, streams);
    }
  }

  lemma AskedEarlier(messages: seq<Message>, from: nat, streams: Option<set<Stream>>)
    ensures forall i :: AskedFor(messages, i, from, streams) ==> i > from && AskedFor(messages, i, from - 1, streams)
  {
  }

  /** A message stands among those found up to the place `end` exactly if its own place is no later. */
  lemma CutInNumbers(
    messages: seq<Message>, found: seq<Message>, after: int, streams: Option<set<Stream>>, n: nat, end: int)
    requires Numbered(messages) && n <= |found|
    requires Sound(messages, found, after, streams) && Ordered(found) && Complete(messages, found, after, streams)
    requires end == if n == 0 then after else found[n - 1].sequence
    ensures forall i :: AskedFor(messages, i, after, streams) && i <= end ==> messages[i] in found[..n]
    ensures n < |found| <==> exists i :: AskedFor(messages, i, end, streams)
  {
    hide Numbered, Complete, Sound, Ordered;
    forall i | AskedFor(messages, i, after, streams) && i <= end ensures messages[i] in found[..n] {
      var k := PlaceOf(messages, found, after, streams, i);
      assert k < n by { InOrder(found, n, k); }
      assert found[..n][k] == messages[i];
    }
    if n < |found| {
      NextIsLater(messages, found, after, streams, n);
      assert AskedFor(messages, found[n].sequence, end, streams);
    }
    if i :| AskedFor(messages, i, end, streams) {
      if n > 0 {
        NextIsLater(messages, found, after, streams, n - 1);
      }
      assert AskedFor(messages, i, after, streams);
      var k := PlaceOf(messages, found, after, streams, i);
      assert k >= n by { InOrder(found, n, k); }
    }
  }

  lemma PlaceOf(messages: seq<Message>, found: seq<Message>, after: int, streams: Option<set<Stream>>, i: int)
    returns (k: nat)
    requires Numbered(messages) && Complete(messages, found, after, streams) && AskedFor(messages, i, after, streams)
    ensures k < |found| && found[k] == messages[i] && found[k].sequence == i
  {
    assert messages[i] in found;
    k :| k < |found| && found[k] == messages[i];
  }

  lemma InOrder(found: seq<Message>, n: nat, k: nat)
    requires Ordered(found) && n <= |found| && k < |found|
    ensures k >= n && n > 0 ==> found[n - 1].sequence < found[k].sequence
    ensures k < n ==> found[k].sequence <= found[n - 1].sequence
  {
  }

  /** The found message `k` is asked for after any earlier one. */
  lemma NextIsLater(messages: seq<Message>, found: seq<Message>, after: int, streams: Option<set<Stream>>, k: nat)
    requires Sound(messages, found, after, streams) && Ordered(found) && k < |found|
    ensures AskedFor(messages, found[k].sequence, if k == 0 then after else found[k - 1].sequence, streams)
    ensures found[k].sequence > after
  {
  }

  /** How many messages a page may hold: fifty unless asked otherwise, and never more than two hundred. */
  predicate PageHolds(limit: Option<int>, n: int) {
    n <= 200 && (limit.None? ==> n <= 50) && (limit.Some? ==> n <= limit.value)
  }

  /**
   A page shows messages asked for, in order, and skips none before its last. It says there are more exactly when a
   message asked for comes after it; then it is as full as it may be.
   */
  lemma PageInNumbers(messages: seq<Message>, after: int, limit: Option<int>, streams: Option<set<Stream>>)
    requires Numbered(messages) && after >= -1 && limit.GetOr(50) > 0
    ensures var page := PageAfter(messages, after, PageSize(limit), streams);
            var shown, end := page.messages, if page.messages == [] then after else
              page.messages[|page.messages| - 1].sequence;
            && page.total == |messages| && PageHolds(limit, |shown|)
            && Sound(messages, shown, after, streams) && Ordered(shown)
            && (forall i :: AskedFor(messages, i, after, streams) && i <= end ==> messages[i] in shown)
            && (page.hasMore <==> exists i :: AskedFor(messages, i, end, streams))
            && (page.hasMore ==> !PageHolds(limit, |shown| + 1))
            && page.nextCursor == if shown == [] && after < 0 then None else Some(end)
  {
    hide Matching, Numbered, Sound, Ordered, Complete, AskedFor, PageHolds, PageSize;
    MatchingInNumbers(messages, after + 1, streams);
    var found := Matching(messages, after + 1, streams);
    PageSizeInNumbers(limit);
    var shown := PageAfter(messages, after, PageSize(limit), streams).messages;
    var end := if shown == [] then after else shown[|shown| - 1].sequence;
    assert shown == found[..|shown|];
    assert |shown| > 0 ==> shown[|shown| - 1] == found[|shown| - 1];
    PrefixOfFound(messages, found, after, streams, |shown|);
    CutInNumbers(messages, found, after, streams, |shown|, end);
    EndIsInRange(messages, found, after, streams, |shown|);
  }

  lemma PageSizeInNumbers(limit: Option<int>)
    requires limit.GetOr(50) > 0
    ensures PageSize(limit) > 0 && forall n :: PageHolds(limit, n) <==> n <= PageSize(limit)
  {
  }

  lemma PrefixOfFound(messages: seq<Message>, found: seq<Message>, after: int, streams: Option<set<Stream>>, n: nat)
    requires Sound(messages, found, after, streams) && Ordered(found) && n <= |found|
    ensures Sound(messages, found[..n], after, streams) && Ordered(found[..n])
  {
  }

  lemma EndIsInRange(messages: seq<Message>, found: seq<Message>, after: int, streams: Option<set<Stream>>, n: nat)
    requires Sound(messages, found, after, streams) && n <= |found| && after >= -1
    ensures n > 0 ==> found[n - 1].sequence > after
  {
  }

  /** A line as a program writes it: some text, and a newline with or without a carriage return. */
  datatype Printed = Printed(text: string, crlf: bool)

  function Ended(p: Printed): string {
    p.text + if p.crlf then "\r" else ""
  }

  /** The text has no line end of its own, and either something to see or nothing but blanks. */
  ghost predicate Plain(p: Printed) {
    && '\n' !in p.text && (p.crlf || p.text == "" || p.text[|p.text| - 1] != '\r')
    && (Visible(p.text) || forall i :: 0 <= i < |p.text| ==> p.text[i] == ' ' || p.text[i] == '\t')
  }

  ghost predicate Visible(text: string) {
    exists i :: 0 <= i < |text| && text[i] > ' '
  }

  function EndedAll(ps: seq<Printed>): (lines: seq<string>)
    ensures |lines| == |ps| && forall i :: 0 <= i < |ps| ==> lines[i] == Ended(ps[i])
  {
    seq(|ps|, i requires 0 <= i < |ps| => Ended(ps[i]))
  }

  ghost function VisibleTexts(ps: seq<Printed>): seq<string> {
    if ps == [] then []
    else
      var front, last := VisibleTexts(ps[..|ps| - 1]), ps[|ps| - 1].text;
      if Visible(last) then front + [last] else front
  }

  lemma PlainIsClean(p: Printed)
    requires Plain(p)
    ensures Clean(Ended(p)) == p.text && (Blank(p.text) <==> !Visible(p.text)) && '\n' !in Ended(p)
  {
    if p.crlf {
      assert (p.text + "\r")[..|p.text|] == p.text;
    } else {
      assert p.text + "" == p.text;
    }
    if i :| 0 <= i < |p.text| && p.text[i] > ' ' {
      assert !Blank(p.text);
    }
  }

  lemma {:induction false} PlainLinesAreKept(ps: seq<Printed>)
    requires forall p :: p in ps ==> Plain(p)
    ensures Kept(EndedAll(ps)) == VisibleTexts(ps)
  {
    hide Clean, Blank, Visible, Ended, Plain;
    if ps != [] {
      PlainLinesAreKept(ps[..|ps| - 1]);
      assert ps[|ps| - 1] in ps;
      PlainIsClean(ps[|ps| - 1]);
      assert EndedAll(ps)[..|ps| - 1] == EndedAll(ps[..|ps| - 1]);
    }
  }

  /** Lines printed arrive as messages with their texts, in order, whatever their ends; blank ones do not. */
  lemma PrintedLinesArrive(ps: seq<Printed>, s: Stream)
    requires forall p :: p in ps ==> Plain(p)
    ensures var o := ConsumeChunk(Output("", "", []), s, Written(EndedAll(ps)));
            Raws(o.messages, s) == VisibleTexts(ps) && BufferOf(o, s) == ""
  {
    hide Clean, Blank, Visible, Ended, Plain, Kept, Raws, Frame;
    var lines := EndedAll(ps);
    var f := Framed(lines, "");
    forall i | 0 <= i < |lines| ensures '\n' !in lines[i] {
      assert ps[i] in ps;
      PlainIsClean(ps[i]);
    }
    FramedExactly(Written(lines), f);
    assert Written(lines) + "" == Written(lines) && "" + Written(lines) == Written(lines);
    ConsumedRaws(Output("", "", []), s, Written(lines));
    PlainLinesAreKept(ps);
    assert Raws([], s) == [] by { NoRaws(s); }
  }

  lemma NoRaws(s: Stream)
    ensures Raws([], s) == []
  {
  }
}
