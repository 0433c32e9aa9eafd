/** `AggregateReader`: reading only the newly appended bytes of a growing log.

Recognising an aggregate inside one complete line is a parameter; what is modelled is that no
line is lost, split or seen twice, whatever the schedule of polls.
*/
module AggregateLog {
  import opened Wrappers

  newtype byte = b: int | 0 <= b < 256

  const NEWLINE: byte := 10

  datatype SyncAggregate = SyncAggregate(total: nat, finished: nat, active: nat, passive: nat) {
    /** No peer is actively syncing, and every connected peer has finished or gone passive. */
    predicate AllConnectedFinished() {
      total > 0 && active == 0 && finished + passive == total
    }
  }

  type LineParser = seq<byte> -> Option<SyncAggregate>

  // ----- splitting -----

  /** The pieces between newlines, always at least one: the value of `raw.split(b"\n")`. */
  function Split(raw: seq<byte>): (parts: seq<seq<byte>>)
    ensures parts != []
  {
    if raw == [] then [[]]
    else
      var parts, c := Split(raw[..|raw| - 1]), raw[|raw| - 1];
      var n := |parts| - 1;
      if c == NEWLINE then parts + [[]] else parts[..n] + [parts[n] + [c]]
  }

  /** The complete lines of a log. */
  function Lines(raw: seq<byte>): seq<seq<byte>> {
    Split(raw)[..|Split(raw)| - 1]
  }

  /** The unterminated end of a log. */
  function Unfinished(raw: seq<byte>): seq<byte> {
    Split(raw)[|Split(raw)| - 1]
  }

  lemma PartsOf(raw: seq<byte>)
    ensures Split(raw)[..|Split(raw)| - 1] == Lines(raw)
    ensures Split(raw)[|Split(raw)| - 1] == Unfinished(raw)
  {
  }

  lemma SplitSnoc(raw: seq<byte>, c: byte)
    ensures Lines(raw + [c]) == if c == NEWLINE then Lines(raw) + [Unfinished(raw)] else Lines(raw)
    ensures Unfinished(raw + [c]) == if c == NEWLINE then [] else Unfinished(raw) + [c]
  {
    assert (raw + [c])[..|raw|] == raw;
  }

  lemma EmptySplit()
    ensures Lines([]) == [] && Unfinished([]) == []
  {
  }

  /** Writing lines back, each with its newline. */
  function Terminated(lines: seq<seq<byte>>): seq<byte> {
    if lines == [] then [] else Terminated(lines[..|lines| - 1]) + lines[|lines| - 1] + [NEWLINE]
  }

  /** Splitting is exact: the pieces give the log back and contain no newline (byte 10). */
  lemma {:induction false} SplitExact(raw: seq<byte>)
    ensures Terminated(Lines(raw)) + Unfinished(raw) == raw
    ensures 10 !in Unfinished(raw)
    ensures forall i :: 0 <= i < |Lines(raw)| ==> 10 !in Lines(raw)[i]
  {
    hide Split, Lines, Unfinished;
    if raw == [] {
      EmptySplit();
    } else {
      var rest, c := raw[..|raw| - 1], raw[|raw| - 1];
      assert raw == rest + [c];
      SplitExact(rest);
      SplitSnoc(rest, c);
      assert (Lines(rest) + [Unfinished(rest)])[..|Lines(rest)|] == Lines(rest);
    }
  }

  lemma {:induction false} NoNewline(raw: seq<byte>)
    requires NEWLINE !in raw
    ensures Lines(raw) == [] && Unfinished(raw) == raw
  {
    if raw != [] {
      var rest, c := raw[..|raw| - 1], raw[|raw| - 1];
      assert raw == rest + [c];
      NoNewline(rest);
      SplitSnoc(rest, c);
    }
  }

  /** Splitting a log in two readings: only the unfinished end is carried over. */
  lemma {:induction false} SplitResumes(a: seq<byte>, b: seq<byte>)
    ensures Lines(a + b) == Lines(a) + Lines(Unfinished(a) + b)
    ensures Unfinished(a + b) == Unfinished(Unfinished(a) + b)
    decreases |b|
  {
    hide Split, Lines, Unfinished;
    if b == [] {
      SplitExact(a);
      NoNewline(Unfinished(a));
      assert a + b == a && Unfinished(a) + b == Unfinished(a);
    } else {
      var b', c := b[..|b| - 1], b[|b| - 1];
      SplitResumes(a, b');
      SplitSnoc(a + b', c);
      SplitSnoc(Unfinished(a) + b', c);
      assert a + b == a + b' + [c] && Unfinished(a) + b == Unfinished(a) + b' + [c];
    }
  }

  // ----- what the reader has seen -----

  /** The aggregates of a list of lines, in order. */
  function Aggregates(parse: LineParser, lines: seq<seq<byte>>): seq<SyncAggregate> {
    if lines == [] then []
    else
      var rest := Aggregates(parse, lines[..|lines| - 1]);
      match parse(lines[|lines| - 1])
      case None => rest
      case Some(agg) => rest + [agg]
  }

  lemma AggregatesSnoc(parse: LineParser, lines: seq<seq<byte>>, line: seq<byte>)
    ensures Aggregates(parse, lines + [line]) ==
      match parse(line) case None => Aggregates(parse, lines) case Some(agg) => Aggregates(parse, lines) + [agg]
  {
    assert (lines + [line])[..|lines|] == lines;
  }

  lemma {:induction false} AggregatesConcat(parse: LineParser, a: seq<seq<byte>>, b: seq<seq<byte>>)
    ensures Aggregates(parse, a + b) == Aggregates(parse, a) + Aggregates(parse, b)
    decreases |b|
  {
    if b == [] {
      assert a + b == a;
    } else {
      AggregatesConcat(parse, a, b[..|b| - 1]);
      assert (a + b)[..|a + b| - 1] == a + b[..|b| - 1];
    }
  }

  /** The reader's public state. */
  datatype View = View(latest: Option<SyncAggregate>, seqNo: nat, everFinished: bool)

  /** The public state after reading a whole log at once. */
  function OneShot(parse: LineParser, log: seq<byte>): View {
    ViewOf(Aggregates(parse, Lines(log)))
  }

  function ViewOf(aggs: seq<SyncAggregate>): View {
    View(
      if aggs == [] then None else Some(aggs[|aggs| - 1]),
      |aggs|,
      exists i :: 0 <= i < |aggs| && aggs[i].finished > 0)
  }

  /** What the file system shows to one poll: the size found first, then the content read.
      The file may change in between. */
  datatype FileState =
    | Missing
    | Present(size: nat, content: Option<seq<byte>>)   // no content: opening it failed

  datatype PollError = OverCap | Shrank | CannotOpen

  /** Why a poll raises, if it does. */
  function Raises(file: FileState, offset: nat, maxBytes: nat): Option<PollError> {
    if file.Missing? then None
    else if file.size > maxBytes then Some(OverCap)
    else if file.size < offset then Some(Shrank)
    else if file.size > offset && file.content.None? then Some(CannotOpen)
    else None
  }

  /** A poll of a growing log that stays readable and within the cap never raises; one of a log that
      outgrew the cap, or lost bytes already read, always does. */
  lemma RaisesWhen(file: FileState, offset: nat, maxBytes: nat)
    ensures file.Present? && offset <= file.size <= maxBytes && file.content.Some? ==> Raises(file, offset, maxBytes) == None
    ensures file.Present? && file.size > maxBytes ==> Raises(file, offset, maxBytes) == Some(OverCap)
    ensures file.Present? && file.size < offset && file.size <= maxBytes ==> Raises(file, offset, maxBytes) == Some(Shrank)
    ensures file.Present? && offset < file.size <= maxBytes && file.content.None? ==> Raises(file, offset, maxBytes) == Some(CannotOpen)
    ensures file.Missing? || (file.size == offset && file.size <= maxBytes) ==> Raises(file, offset, maxBytes) == None
  {
  }

  /** What a poll that does not raise reads: the content beyond the offset, if the size has grown. */
  function NewBytes(file: FileState, offset: nat): seq<byte> {
    if file.Present? && file.size > offset && file.content.Some? && |file.content.value| > offset
    then file.content.value[offset..]
    else []
  }

  class AggregateReader {
    const parse: LineParser
    const maxBytes: nat
    var offset: nat
    var carry: seq<byte>
    var everFinished: bool
    var latest: Option<SyncAggregate>
    var seqNo: nat
    var capped: bool

    /** All bytes read so far, in order. */
    ghost var consumed: seq<byte>

    /** The incremental state is the state of a single reading of everything consumed. */
    ghost predicate Valid()
      reads this
    {
      && offset == |consumed|
      && carry == Unfinished(consumed)
      && View(latest, seqNo, everFinished) == OneShot(parse, consumed)
    }

    constructor (parse: LineParser, maxBytes: nat)
      ensures Valid() && consumed == [] && !capped
      ensures this.parse == parse && this.maxBytes == maxBytes
    {
      this.parse, this.maxBytes := parse, maxBytes;
      offset, carry, everFinished, latest, seqNo, capped := 0, [], false, None, 0, false;
      consumed := [];
    }

    /** `poll`: consume new bytes and return the most recent aggregate. A poll that raises leaves
        everything but the cap flag as it was. */
    method Poll(file: FileState) returns (r: Result<Option<SyncAggregate>, PollError>)
      requires Valid()
      modifies this
      ensures Valid()
      ensures match Raises(file, old(offset), maxBytes)
        case Some(e) => (
          && r == Err(e) && consumed == old(consumed) && carry == old(carry)
          && View(latest, seqNo, everFinished) == old(View(latest, seqNo, everFinished)))
        case None => r == Ok(latest) && consumed == old(consumed) + NewBytes(file, old(offset))
      ensures capped == (old(capped) || r == Err(OverCap))
    {
      hide Split, Lines, Unfinished, Aggregates, ViewOf;
      if file.Missing? {
        return Ok(latest);
      }
      if file.size > maxBytes {
        capped := true;
        return Err(OverCap);
      }
      if file.size < offset {
        return Err(Shrank);
      }
      if file.size == offset {
        return Ok(latest);
      }
      if file.content.None? {
        return Err(CannotOpen);
      }
      var content := file.content.value;
      var chunk := if offset <= |content| then content[offset..] else [];
      assert chunk == NewBytes(file, offset);
      offset := offset + |chunk|;
      var raw := carry + chunk;
      SplitResumes(consumed, chunk);
      PartsOf(raw);
      var parts := Split(raw);
      carry := parts[|parts| - 1];
      ConsumeLines(parts[..|parts| - 1]);
      consumed := consumed + chunk;
      return Ok(latest);
    }

    /** The loop over the complete lines of one chunk. */
    method ConsumeLines(lines: seq<seq<byte>>)
      modifies `latest, `seqNo, `everFinished
      requires View(latest, seqNo, everFinished) == ViewOf(Aggregates(parse, Lines(consumed)))
      ensures View(latest, seqNo, everFinished) == ViewOf(Aggregates(parse, Lines(consumed) + lines))
    {
      hide Lines, Aggregates, ViewOf;
      ghost var before := Lines(consumed);
      assert before + lines[..0] == before;
      for i := 0 to |lines|
        invariant View(latest, seqNo, everFinished) == ViewOf(Aggregates(parse, before + lines[..i]))
      {
        assert before + lines[..i + 1] == before + lines[..i] + [lines[i]];
        AggregatesSnoc(parse, before + lines[..i], lines[i]);
        match parse(lines[i]) {
          case None =>
          case Some(agg) =>
            ViewSnoc(Aggregates(parse, before + lines[..i]), agg);
            latest := Some(agg);
            seqNo := seqNo + 1;
            if agg.finished > 0 {
              everFinished := true;
            }
        }
      }
      assert before + lines[..|lines|] == before + lines;
    }
  }

  lemma ViewSnoc(aggs: seq<SyncAggregate>, agg: SyncAggregate)
    ensures ViewOf(aggs + [agg]) ==
      View(Some(agg), ViewOf(aggs).seqNo + 1, ViewOf(aggs).everFinished || agg.finished > 0)
  {
    var more := aggs + [agg];
    assert more[|aggs|] == agg;
    assert forall i :: 0 <= i < |aggs| ==> more[i] == aggs[i];
  }

  /** The indices of the lines that were recognised. */
  ghost function Recognised(parse: LineParser, lines: seq<seq<byte>>): set<nat> {
    set i: nat | i < |lines| && parse(lines[i]).Some?
  }

  /** The state, read off the lines: the last recognised line is the latest, the sequence number counts
      the recognised ones, and the history flag says that one of them had a finished peer. */
  lemma {:induction false} ViewTells(parse: LineParser, lines: seq<seq<byte>>)
    ensures var view := ViewOf(Aggregates(parse, lines));
            && view.seqNo == |Recognised(parse, lines)|
            && (view.everFinished <==> exists i :: i in Recognised(parse, lines) && parse(lines[i]).value.finished >= 1)
            && (view.latest.None? <==> Recognised(parse, lines) == {})
            && (view.latest.Some? ==>
                  exists i :: && i in Recognised(parse, lines) && parse(lines[i]) == view.latest
                              && forall j :: j in Recognised(parse, lines) ==> j <= i)
  {
    if lines != [] {
      var rest, line := lines[..|lines| - 1], lines[|lines| - 1];
      ViewTells(parse, rest);
      AggregatesSnoc(parse, rest, line);
      assert lines == rest + [line];
      assert Recognised(parse, lines) ==
             Recognised(parse, rest) + if parse(line).Some? then {|rest|} else {};
      if parse(line).Some? {
        ViewSnoc(Aggregates(parse, rest), parse(line).value);
        assert |rest| in Recognised(parse, lines);
      }
    }
  }

  // ----- schedules of polls over one growing log -----

  /** What successive polls have read. */
  function Read(files: seq<FileState>, maxBytes: nat): seq<byte> {
    if files == [] then []
    else
      var consumed, file := Read(files[..|files| - 1], maxBytes), files[|files| - 1];
      if Raises(file, |consumed|, maxBytes).Some? then consumed else consumed + NewBytes(file, |consumed|)
  }

  /** Every poll sees a prefix of one log, and a size that had been reached before. */
  ghost predicate Growing(files: seq<FileState>, log: seq<byte>) {
    forall i :: 0 <= i < |files| && files[i].Present? && files[i].content.Some? ==>
      files[i].content.value <= log && files[i].size <= |files[i].content.value|
  }

  /** Whatever the schedule, the polls of a growing log read a prefix of it, nothing twice and
      nothing left out; a poll that sees the whole log catches up with it. So the reader's state
      (`Valid`) is that of reading that prefix in one go. */
  lemma {:induction false} AnyScheduleReadsPrefix(files: seq<FileState>, log: seq<byte>, maxBytes: nat)
    requires Growing(files, log)
    ensures Read(files, maxBytes) <= log
    ensures files != [] && files[|files| - 1] == Present(|log|, Some(log)) && |log| <= maxBytes ==>
      Read(files, maxBytes) == log
  {
    if files != [] {
      var rest, file := files[..|files| - 1], files[|files| - 1];
      assert Growing(rest, log) by {
        assert forall i :: 0 <= i < |rest| ==> rest[i] == files[i];
      }
      AnyScheduleReadsPrefix(rest, log, maxBytes);
      var consumed := Read(rest, maxBytes);
      if Raises(file, |consumed|, maxBytes).None? && NewBytes(file, |consumed|) != [] {
        assert consumed == log[..|consumed|];
        assert file.content.value == log[..|file.content.value|];
        assert consumed + NewBytes(file, |consumed|) == file.content.value;
      }
    }
  }

  /** The sequence number and the history flag never go back while the log grows. */
  lemma ViewMonotone(parse: LineParser, log: seq<byte>, more: seq<byte>)
    ensures OneShot(parse, log).seqNo <= OneShot(parse, log + more).seqNo
    ensures OneShot(parse, log).everFinished ==> OneShot(parse, log + more).everFinished
    ensures OneShot(parse, log).latest.Some? ==> OneShot(parse, log + more).latest.Some?
    ensures OneShot(parse, log).seqNo == OneShot(parse, log + more).seqNo ==>
      OneShot(parse, log) == OneShot(parse, log + more)
  {
    SplitResumes(log, more);
    var a, b := Lines(log), Lines(Unfinished(log) + more);
    AggregatesConcat(parse, a, b);
    var x, y := Aggregates(parse, a), Aggregates(parse, b);
    assert forall i :: 0 <= i < |x| ==> (x + y)[i] == x[i];
    if |y| == 0 {
      assert x + y == x;
    }
  }
}
