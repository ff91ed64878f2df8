/**
 The dispatch monitors: the strict collector of tools/stress_server.py and the lenient
 wait_for_dispatches of tools/benchmark_server.py, over the decoded lines of one server session.
 */
module DispatchMonitor {
  import opened Wrappers

  /**
   One item of the output queue.  A line whose record cannot be decoded, or a tracked record
   without two fields and an integer, is Malformed; Closed is the end-of-output mark; any other
   line is Ignored.
   */
  datatype Line =
    | Marker(id: int, sequence: Option<int>, kind: string, engine: Option<string>, voice: Option<string>)
    | Terminal(id: int, status: string)
    | Malformed
    | Closed
    | Ignored

  datatype Event = Event(at: int, line: Line)

  datatype Source = Source(at: int, engine: Option<string>, voice: Option<string>)

  datatype End = End(at: int, status: string)

  datatype History = History(sequences: seq<int>, kinds: seq<string>, source: Option<Source>,
                             terminal: Option<End>, terminalCount: nat)

  const EMPTY_HISTORY := History([], [], None, None, 0)

  const STARTED := "utterance_started"

  datatype Error = BadRecord | MarkerAfterTerminal | WrongSequence | DuplicateTerminal | OutputClosed | TimedOut

  // ---------------------------------------------------------------- what one dispatch may say

  predicate Owns(line: Line, id: int) {
    (line.Marker? || line.Terminal?) && line.id == id
  }

  /** The records of one dispatch, in order. */
  function Mine(log: seq<Event>, id: int): seq<Event> {
    if log == [] then []
    else
      var last := log[|log| - 1];
      Mine(log[..|log| - 1], id) + if Owns(last.line, id) then [last] else []
  }

  predicate Readable(line: Line) {
    !line.Malformed? && !line.Closed?
  }

  ghost predicate AllReadable(log: seq<Event>) {
    forall e :: e in log ==> Readable(e.line)
  }

  /** Markers numbered from one, and a terminal only at the very end. */
  ghost predicate WellOrdered(own: seq<Event>) {
    forall k :: 0 <= k < |own| ==>
      && (own[k].line.Marker? ==> own[k].line.sequence == Some(k + 1))
      && (own[k].line.Terminal? ==> k == |own| - 1)
  }

  predicate Ended(own: seq<Event>) {
    exists k :: 0 <= k < |own| && own[k].line.Terminal?
  }

  /** A log without malformed records in which every tracked dispatch keeps its order. */
  ghost predicate Orderly(log: seq<Event>, ids: set<int>) {
    AllReadable(log) && forall id {:trigger Mine(log, id)} :: id in ids ==> WellOrdered(Mine(log, id))
  }

  ghost predicate Finished(log: seq<Event>, ids: set<int>) {
    forall id {:trigger Mine(log, id)} :: id in ids ==> Ended(Mine(log, id))
  }

  /** The first marker that announces audio. */
  function FirstSource(own: seq<Event>): Option<Source> {
    if own == [] then None
    else if own[0].line.Marker? && own[0].line.kind == STARTED then
      Some(Source(own[0].at, own[0].line.engine, own[0].line.voice))
    else FirstSource(own[1..])
  }

  function LastTerminal(own: seq<Event>): Option<End> {
    if own == [] then None
    else
      var last := own[|own| - 1];
      if last.line.Terminal? then Some(End(last.at, last.line.status)) else LastTerminal(own[..|own| - 1])
  }

  function MarkerCount(own: seq<Event>): nat {
    if Ended(own) && own != [] then |own| - 1 else |own|
  }

  /** The history a well-ordered dispatch leaves, read off its own records. */
  ghost predicate HistoryOf(h: History, own: seq<Event>) {
    && h.sequences == seq(MarkerCount(own), i => i + 1)
    && |h.kinds| == MarkerCount(own)
    && (forall i :: 0 <= i < |h.kinds| ==> own[i].line.Marker? && h.kinds[i] == own[i].line.kind)
    && h.source == FirstSource(own)
    && h.terminal == LastTerminal(own)
    && h.terminalCount == if Ended(own) then 1 else 0
  }

  // ---------------------------------------------------------------- appending one record

  lemma MineAppend(log: seq<Event>, e: Event, id: int)
    ensures Mine(log + [e], id) == if Owns(e.line, id) then Mine(log, id) + [e] else Mine(log, id)
  {
  }

  lemma {:induction false} FirstSourceAppend(own: seq<Event>, e: Event)
    ensures FirstSource(own + [e]) ==
            if FirstSource(own).Some? then FirstSource(own)
            else if e.line.Marker? && e.line.kind == STARTED then Some(Source(e.at, e.line.engine, e.line.voice))
            else None
  {
    if own == [] {
      assert own + [e] == [e] && [e][1..] == [];
    } else {
      FirstSourceAppend(own[1..], e);
      assert (own + [e])[1..] == own[1..] + [e];
    }
  }

  lemma LastTerminalAppend(own: seq<Event>, e: Event)
    ensures LastTerminal(own + [e]) ==
            if e.line.Terminal? then Some(End(e.at, e.line.status)) else LastTerminal(own)
  {
  }

  lemma {:induction false} EndedHasTerminal(own: seq<Event>)
    ensures Ended(own) <==> LastTerminal(own).Some?
  {
    if own != [] {
      var front := own[..|own| - 1];
      EndedHasTerminal(front);
      assert forall k :: 0 <= k < |front| ==> front[k] == own[k];
    }
  }

  lemma OwnOnly(log: seq<Event>, id: int)
    ensures forall e :: e in Mine(log, id) ==> Owns(e.line, id)
  {
  }

  /** An orderly dispatch that has ended: markers 1 to n, then exactly one terminal. */
  lemma CompleteDispatch(log: seq<Event>, id: int)
    ensures var own := Mine(log, id);
            WellOrdered(own) && Ended(own) <==>
            && own != [] && own[|own| - 1].line.Terminal?
            && forall k :: 0 <= k < |own| - 1 ==> own[k].line.Marker? && own[k].line.sequence == Some(k + 1)
  {
    OwnOnly(log, id);
    var own := Mine(log, id);
    assert forall k :: 0 <= k < |own| ==> own[k] in own;
  }

  /** What a dispatch may say next. */
  lemma OrderStep(own: seq<Event>, e: Event)
    requires WellOrdered(own)
    requires e.line.Marker? || e.line.Terminal?
    ensures WellOrdered(own + [e]) <==>
            !Ended(own) && (e.line.Marker? ==> e.line.sequence == Some(|own| + 1))
  {
    var next := own + [e];
    assert next[|own|] == e;
    assert forall k :: 0 <= k < |own| ==> next[k] == own[k];
  }

  lemma EndedStep(own: seq<Event>, e: Event)
    ensures Ended(own + [e]) <==> Ended(own) || e.line.Terminal?
  {
    assert (own + [e])[|own|] == e;
    if k :| 0 <= k < |own| && own[k].line.Terminal? {
      assert (own + [e])[k] == own[k];
    }
  }

  // ---------------------------------------------------------------- the strict collector

  /** The table of tracked histories. */
  class Histories {
    var table: map<int, History>

    constructor (ids: set<int>)
      ensures table.Keys == ids && forall id :: id in ids ==> table[id] == EMPTY_HISTORY
    {
      table := map id | id in ids :: EMPTY_HISTORY;
    }

    /** The table is what the log says of each tracked dispatch. */
    ghost predicate Tracks(log: seq<Event>)
      reads this
    {
      forall id {:trigger Mine(log, id)} :: id in table ==>
        WellOrdered(Mine(log, id)) && HistoryOf(table[id], Mine(log, id))
    }

    method RecordMarker(e: Event, ghost log: seq<Event>) returns (failed: Option<Error>)
      requires e.line.Marker? && e.line.id in table && Tracks(log)
      modifies this
      ensures failed.None? <==> WellOrdered(Mine(log, e.line.id) + [e])
      ensures failed.None? ==>
                && table.Keys == old(table).Keys
                && (forall id :: id in table && id != e.line.id ==> table[id] == old(table)[id])
                && HistoryOf(table[e.line.id], Mine(log, e.line.id) + [e])
    {
      hide WellOrdered, Mine, Ended, FirstSource, LastTerminal;
      var history := table[e.line.id];
      ghost var own := Mine(log, e.line.id);
      OwnOnly(log, e.line.id);
      OrderStep(own, e);
      EndedHasTerminal(own);
      EndedStep(own, e);
      if history.terminal.Some? { return Some(MarkerAfterTerminal); }
      var expected := |history.sequences| + 1;
      if e.line.sequence != Some(expected) { return Some(WrongSequence); }
      history := history.(sequences := history.sequences + [expected], kinds := history.kinds + [e.line.kind]);
      if e.line.kind == STARTED && history.source.None? {
        history := history.(source := Some(Source(e.at, e.line.engine, e.line.voice)));
      }
      table := table[e.line.id := history];
      FirstSourceAppend(own, e);
      LastTerminalAppend(own, e);
      return None;
    }

    method RecordTerminal(e: Event, ghost log: seq<Event>) returns (failed: Option<Error>)
      requires e.line.Terminal? && e.line.id in table && Tracks(log)
      modifies this
      ensures failed.None? <==> WellOrdered(Mine(log, e.line.id) + [e])
      ensures failed.None? ==>
                && table.Keys == old(table).Keys
                && (forall id :: id in table && id != e.line.id ==> table[id] == old(table)[id])
                && HistoryOf(table[e.line.id], Mine(log, e.line.id) + [e])
    {
      hide WellOrdered, Mine, Ended, FirstSource, LastTerminal;
      var history := table[e.line.id];
      ghost var own := Mine(log, e.line.id);
      OwnOnly(log, e.line.id);
      OrderStep(own, e);
      EndedStep(own, e);
      history := history.(terminalCount := history.terminalCount + 1);
      table := table[e.line.id := history];
      if history.terminalCount != 1 { return Some(DuplicateTerminal); }
      history := history.(terminal := Some(End(e.at, e.line.status)));
      table := table[e.line.id := history];
      FirstSourceAppend(own, e);
      LastTerminalAppend(own, e);
      return None;
    }

    /** record_output_line: accepts exactly the lines that keep the log orderly. */
    method RecordOutputLine(e: Event, ghost log: seq<Event>) returns (failed: Option<Error>)
      requires Tracks(log) && Orderly(log, table.Keys) && !e.line.Closed?
      modifies this
      ensures failed.None? <==> Orderly(log + [e], old(table).Keys)
      ensures failed.None? ==> table.Keys == old(table).Keys && Tracks(log + [e])
    {
      hide WellOrdered, Mine, HistoryOf;
      forall id
        ensures Mine(log + [e], id) == if Owns(e.line, id) then Mine(log, id) + [e] else Mine(log, id)
      {
        MineAppend(log, e, id);
      }
      assert e in log + [e];
      failed := None;
      match e.line
      case Marker(id, _, _, _, _) =>
        if id in table { failed := RecordMarker(e, log); }
      case Terminal(id, _) =>
        if id in table { failed := RecordTerminal(e, log); }
      case Malformed => failed := Some(BadRecord);
      case _ =>
    }
  }

  /** The shortest prefix of the output in which every tracked dispatch has ended. */
  ghost predicate StopsAt(output: seq<Event>, ids: set<int>, n: nat) {
    && n <= |output| && Finished(output[..n], ids)
    && forall k {:trigger output[..k]} :: 0 <= k < n ==> !Finished(output[..k], ids)
  }

  /** How much of the output is read when the quiet window lets `quiet` more lines in. */
  function Consumed(output: seq<Event>, n: nat, quiet: nat): nat
    requires n <= |output|
  {
    if n + quiet <= |output| then n + quiet else |output|
  }

  ghost predicate StrictlyAccepted(output: seq<Event>, ids: set<int>, quiet: nat, n: nat) {
    StopsAt(output, ids, n) && Orderly(output[..Consumed(output, n, quiet)], ids)
  }

  lemma FinishedTable(histories: Histories, log: seq<Event>)
    requires histories.Tracks(log)
    ensures (exists id :: id in histories.table && histories.table[id].terminalCount == 0)
            <==> !Finished(log, histories.table.Keys)
  {
    forall id | id in histories.table
      ensures HistoryOf(histories.table[id], Mine(log, id))
    {
    }
  }

  lemma OrderedPrefix(own: seq<Event>, e: Event)
    ensures WellOrdered(own + [e]) ==> WellOrdered(own)
  {
    assert forall k :: 0 <= k < |own| ==> (own + [e])[k] == own[k];
  }

  lemma OrderlyShorter(log: seq<Event>, e: Event, ids: set<int>)
    requires Orderly(log + [e], ids)
    ensures Orderly(log, ids)
  {
    assert forall x :: x in log ==> x in log + [e];
    forall id | id in ids
      ensures WellOrdered(Mine(log, id))
    {
      assert WellOrdered(Mine(log + [e], id));
      MineAppend(log, e, id);
      OrderedPrefix(Mine(log, id), e);
    }
  }

  lemma {:induction false} OrderlyPrefix(log: seq<Event>, n: nat, ids: set<int>)
    requires n <= |log| && Orderly(log, ids)
    ensures Orderly(log[..n], ids)
    decreases |log| - n
  {
    if n < |log| {
      OrderlyPrefix(log, n + 1, ids);
      assert log[..n + 1] == log[..n] + [log[n]];
      OrderlyShorter(log[..n], log[n], ids);
    } else {
      assert log[..n] == log;
    }
  }

  /** A dispatch that has ended stays ended. */
  lemma {:induction false} MineGrows(log: seq<Event>, n: nat, id: int)
    requires n <= |log|
    ensures |Mine(log[..n], id)| <= |Mine(log, id)| && Mine(log, id)[..|Mine(log[..n], id)|] == Mine(log[..n], id)
    decreases |log| - n
  {
    if n == |log| {
      assert log[..n] == log;
    } else {
      MineGrows(log, n + 1, id);
      assert log[..n + 1] == log[..n] + [log[n]];
      MineAppend(log[..n], log[n], id);
    }
  }

  /** Where an orderly log first ends every dispatch, the later log adds nothing to any of them. */
  lemma EndedIsFinal(log: seq<Event>, n: nat, id: int)
    requires n <= |log| && WellOrdered(Mine(log, id)) && Ended(Mine(log[..n], id))
    ensures Mine(log[..n], id) == Mine(log, id)
  {
    MineGrows(log, n, id);
    var early, all := Mine(log[..n], id), Mine(log, id);
    var k :| 0 <= k < |early| && early[k].line.Terminal?;
    assert all[..|early|][k] == all[k];
  }

  lemma StopUnique(output: seq<Event>, ids: set<int>, n: nat, m: nat)
    requires StopsAt(output, ids, n) && StopsAt(output, ids, m)
    ensures n == m
  {
  }

  lemma NeverStops(output: seq<Event>, ids: set<int>, position: nat, quiet: nat)
    requires position == |output| && !Finished(output[..position], ids)
    requires forall k {:trigger output[..k]} :: 0 <= k < position ==> !Finished(output[..k], ids)
    ensures forall n :: !StrictlyAccepted(output, ids, quiet, n)
  {
  }

  lemma OrderlyUpTo(output: seq<Event>, ids: set<int>, end: nat, position: nat)
    requires position <= end <= |output| && Orderly(output[..end], ids)
    ensures Orderly(output[..position], ids)
  {
    OrderlyPrefix(output[..end], position, ids);
    assert output[..end][..position] == output[..position];
  }

  /** A disorderly prefix that is read before any stop rules out acceptance. */
  lemma DisorderBeforeStop(output: seq<Event>, ids: set<int>, position: nat, quiet: nat)
    requires position < |output| && !Finished(output[..position], ids)
    requires forall k {:trigger output[..k]} :: 0 <= k < position ==> !Finished(output[..k], ids)
    requires !Orderly(output[..position + 1], ids)
    ensures forall n :: !StrictlyAccepted(output, ids, quiet, n)
  {
    forall n: nat | StopsAt(output, ids, n)
      ensures !Orderly(output[..Consumed(output, n, quiet)], ids)
    {
      if Orderly(output[..Consumed(output, n, quiet)], ids) {
        OrderlyUpTo(output, ids, Consumed(output, n, quiet), position + 1);
      }
    }
  }

  lemma DisorderAfterStop(output: seq<Event>, ids: set<int>, stop: nat, position: nat, quiet: nat)
    requires StopsAt(output, ids, stop) && position < Consumed(output, stop, quiet)
    requires !Orderly(output[..position + 1], ids)
    ensures forall n :: !StrictlyAccepted(output, ids, quiet, n)
  {
    forall n: nat | StopsAt(output, ids, n)
      ensures !Orderly(output[..Consumed(output, n, quiet)], ids)
    {
      StopUnique(output, ids, n, stop);
      if Orderly(output[..Consumed(output, n, quiet)], ids) {
        OrderlyUpTo(output, ids, Consumed(output, n, quiet), position + 1);
      }
    }
  }

  /** One line of output, or the end of it. */
  method ReadLine(histories: Histories, output: seq<Event>, position: nat) returns (failed: Option<Error>)
    requires position < |output| && histories.Tracks(output[..position])
    requires Orderly(output[..position], histories.table.Keys)
    modifies histories
    ensures failed.None? <==> Orderly(output[..position + 1], old(histories.table).Keys)
    ensures failed.None? ==>
              histories.table.Keys == old(histories.table).Keys && histories.Tracks(output[..position + 1])
  {
    var e := output[position];
    assert output[..position + 1] == output[..position] + [e];
    assert e in output[..position + 1];
    if e.line.Closed? { return Some(OutputClosed); }
    failed := histories.RecordOutputLine(e, output[..position]);
  }

  lemma NothingRead(histories: Histories)
    requires forall id :: id in histories.table ==> histories.table[id] == EMPTY_HISTORY
    ensures histories.Tracks([]) && Orderly([], histories.table.Keys)
  {
  }

  /** Reads on until every tracked dispatch has ended. */
  method AwaitTerminals(histories: Histories, output: seq<Event>, quiet: nat)
    returns (failed: Option<Error>, position: nat)
    requires forall id :: id in histories.table ==> histories.table[id] == EMPTY_HISTORY
    modifies histories
    ensures histories.table.Keys == old(histories.table).Keys || failed.Some?
    ensures failed.None? ==>
              && StopsAt(output, histories.table.Keys, position)
              && Orderly(output[..position], histories.table.Keys) && histories.Tracks(output[..position])
    ensures failed.Some? ==> forall n :: !StrictlyAccepted(output, old(histories.table).Keys, quiet, n)
  {
    ghost var ids := histories.table.Keys;
    position := 0;
    NothingRead(histories);
    assert output[..0] == [];
    hide Orderly, Histories.Tracks, Finished, StrictlyAccepted;
    while exists id :: id in histories.table && histories.table[id].terminalCount == 0
      invariant histories.table.Keys == ids
      invariant position <= |output| && histories.Tracks(output[..position])
      invariant Orderly(output[..position], ids)
      invariant forall k {:trigger output[..k]} :: 0 <= k < position ==> !Finished(output[..k], ids)
      decreases |output| - position
    {
      FinishedTable(histories, output[..position]);
      if position == |output| {
        NeverStops(output, ids, position, quiet);
        return Some(TimedOut), position;
      }
      failed := ReadLine(histories, output, position);
      if failed.Some? {
        DisorderBeforeStop(output, ids, position, quiet);
        return;
      }
      position := position + 1;
    }
    FinishedTable(histories, output[..position]);
    return None, position;
  }

  /** Reads the lines of the quiet window. */
  method WatchQuietWindow(histories: Histories, output: seq<Event>, stop: nat, quiet: nat)
    returns (failed: Option<Error>)
    requires StopsAt(output, histories.table.Keys, stop)
    requires Orderly(output[..stop], histories.table.Keys) && histories.Tracks(output[..stop])
    modifies histories
    ensures histories.table.Keys == old(histories.table).Keys || failed.Some?
    ensures var end := Consumed(output, stop, quiet);
            failed.None? ==> Orderly(output[..end], histories.table.Keys) && histories.Tracks(output[..end])
    ensures failed.Some? ==> forall n :: !StrictlyAccepted(output, old(histories.table).Keys, quiet, n)
  {
    ghost var ids := histories.table.Keys;
    var end, position := Consumed(output, stop, quiet), stop;
    while position < end
      invariant histories.table.Keys == ids
      invariant stop <= position <= end && histories.Tracks(output[..position])
      invariant Orderly(output[..position], ids)
    {
      failed := ReadLine(histories, output, position);
      if failed.Some? {
        DisorderAfterStop(output, ids, stop, position, quiet);
        return;
      }
      position := position + 1;
    }
    return None;
  }

  /**
   The strict collector accepts exactly the outputs that are orderly up to the end of the quiet
   window, and reports each dispatch's history; each tracked dispatch has then ended.
   */
  method CollectHistories(output: seq<Event>, identifiers: set<int>, quiet: nat)
    returns (r: Result<map<int, History>, Error>, ghost stop: nat)
    ensures r.Success? ==> StrictlyAccepted(output, identifiers, quiet, stop)
    ensures r.Failure? ==> forall n :: !StrictlyAccepted(output, identifiers, quiet, n)
    ensures r.Success? ==>
              && r.value.Keys == identifiers
              && forall id :: id in identifiers ==>
                   && HistoryOf(r.value[id], Mine(output[..Consumed(output, stop, quiet)], id))
                   && Ended(Mine(output[..Consumed(output, stop, quiet)], id))
  {
    var histories := new Histories(identifiers);
    var failed, position := AwaitTerminals(histories, output, quiet);
    stop := position;
    if failed.Some? { return Failure(failed.value), stop; }
    failed := WatchQuietWindow(histories, output, position, quiet);
    if failed.Some? { return Failure(failed.value), stop; }
    ghost var log := output[..Consumed(output, position, quiet)];
    forall id | id in identifiers
      ensures Ended(Mine(log, id))
    {
      assert log[..stop] == output[..stop];
      EndedIsFinal(log, stop, id);
    }
    return Success(histories.table), stop;
  }

  // ---------------------------------------------------------------- independence of dispatches

  /** Exchanging neighbours that do not belong to one dispatch changes no dispatch's records. */
  lemma {:induction false} ExchangeKeepsMine(log: seq<Event>, k: nat, id: int)
    requires k + 1 < |log|
    requires !(Owns(log[k].line, id) && Owns(log[k + 1].line, id))
    ensures Mine(log[k := log[k + 1]][k + 1 := log[k]], id) == Mine(log, id)
    decreases |log|
  {
    var other := log[k := log[k + 1]][k + 1 := log[k]];
    var front := log[..|log| - 1];
    if k + 2 == |log| {
      var base := log[..k];
      assert log == base + [log[k]] + [log[k + 1]] && other == base + [log[k + 1]] + [log[k]];
      MineAppend(base, log[k], id);
      MineAppend(base + [log[k]], log[k + 1], id);
      MineAppend(base, log[k + 1], id);
      MineAppend(base + [log[k + 1]], log[k], id);
    } else {
      ExchangeKeepsMine(front, k, id);
      assert other[..|log| - 1] == front[k := front[k + 1]][k + 1 := front[k]];
    }
  }

  /** Such an exchange changes neither order nor completion nor any history. */
  lemma ExchangeIrrelevant(log: seq<Event>, k: nat, ids: set<int>)
    requires k + 1 < |log|
    requires forall id :: id in ids ==> !(Owns(log[k].line, id) && Owns(log[k + 1].line, id))
    ensures var other := log[k := log[k + 1]][k + 1 := log[k]];
            && (Orderly(other, ids) <==> Orderly(log, ids))
            && (Finished(other, ids) <==> Finished(log, ids))
            && forall id, h :: id in ids ==> (HistoryOf(h, Mine(other, id)) <==> HistoryOf(h, Mine(log, id)))
  {
    var other := log[k := log[k + 1]][k + 1 := log[k]];
    forall id | id in ids
      ensures Mine(other, id) == Mine(log, id)
    {
      ExchangeKeepsMine(log, k, id);
    }
    assert AllReadable(other) <==> AllReadable(log) by {
      assert other[k] == log[k + 1] && other[k + 1] == log[k];
      assert forall i :: 0 <= i < |log| && i != k && i != k + 1 ==> other[i] == log[i];
      assert AllReadable(log) <==> forall i :: 0 <= i < |log| ==> Readable(log[i].line);
      assert AllReadable(other) <==> forall i :: 0 <= i < |other| ==> Readable(other[i].line);
    }
  }

  /** Two interleavings of the same dispatches, with any other lines between them. */
  ghost predicate Interleaves(a: seq<Event>, b: seq<Event>, ids: set<int>) {
    && (forall id {:trigger Mine(a, id)} {:trigger Mine(b, id)} :: id in ids ==> Mine(a, id) == Mine(b, id))
    && (AllReadable(a) <==> AllReadable(b))
  }

  /** The first point where every dispatch has ended. */
  lemma {:induction false} SomeStop(output: seq<Event>, ids: set<int>, n: nat) returns (stop: nat)
    requires n <= |output| && Finished(output[..n], ids)
    ensures StopsAt(output, ids, stop)
  {
    if k :| 0 <= k < n && Finished(output[..k], ids) {
      stop := SomeStop(output, ids, k);
    } else {
      stop := n;
    }
  }

  lemma FinishedWhole(output: seq<Event>, ids: set<int>, n: nat)
    requires n <= |output| && Finished(output[..n], ids)
    ensures Finished(output, ids)
  {
    forall id | id in ids
      ensures Ended(Mine(output, id))
    {
      MineGrows(output, n, id);
      var early, all := Mine(output[..n], id), Mine(output, id);
      var k :| 0 <= k < |early| && early[k].line.Terminal?;
      assert all[..|early|][k] == all[k];
    }
  }

  /**
   The strict collector that reads all of an output accepts any interleaving of it, though it may stop
   elsewhere, and reports the same history for every dispatch.
   */
  lemma InterleavingIrrelevant(a: seq<Event>, b: seq<Event>, ids: set<int>, n: nat) returns (m: nat)
    requires Interleaves(a, b, ids) && StrictlyAccepted(a, ids, |a|, n)
    ensures StrictlyAccepted(b, ids, |b|, m)
    ensures forall id, h :: id in ids ==> (HistoryOf(h, Mine(a, id)) <==> HistoryOf(h, Mine(b, id)))
  {
    assert a[..Consumed(a, n, |a|)] == a;
    FinishedWhole(a, ids, n);
    assert b[..|b|] == b;
    m := SomeStop(b, ids, |b|);
    assert b[..Consumed(b, m, |b|)] == b;
  }

  // ---------------------------------------------------------------- the lenient collector

  datatype Outcome = Outcome(source: Option<Source>, terminal: Option<End>)

  /** What the lenient collector makes of a dispatch: its first source and its latest terminal. */
  ghost predicate OutcomeOf(o: Outcome, own: seq<Event>) {
    o.source == FirstSource(own) && o.terminal == LastTerminal(own)
  }

  ghost predicate LenientlyAccepted(output: seq<Event>, ids: set<int>, n: nat) {
    StopsAt(output, ids, n) && AllReadable(output[..n])
  }

  function LenientStep(results: map<int, Outcome>, e: Event): map<int, Outcome> {
    match e.line
    case Marker(id, _, kind, engine, voice) =>
      if id in results && kind == STARTED && results[id].source.None?
      then results[id := results[id].(source := Some(Source(e.at, engine, voice)))]
      else results
    case Terminal(id, status) =>
      if id in results then results[id := results[id].(terminal := Some(End(e.at, status)))] else results
    case _ => results
  }

  ghost predicate Reports(results: map<int, Outcome>, log: seq<Event>) {
    forall id {:trigger Mine(log, id)} :: id in results ==> OutcomeOf(results[id], Mine(log, id))
  }

  lemma ReportsStep(results: map<int, Outcome>, log: seq<Event>, e: Event)
    requires Reports(results, log)
    ensures Reports(LenientStep(results, e), log + [e])
    ensures LenientStep(results, e).Keys == results.Keys
  {
    forall id | id in results
      ensures OutcomeOf(LenientStep(results, e)[id], Mine(log + [e], id))
    {
      MineAppend(log, e, id);
      if Owns(e.line, id) {
        FirstSourceAppend(Mine(log, id), e);
        LastTerminalAppend(Mine(log, id), e);
      }
    }
  }

  lemma FinishedResults(results: map<int, Outcome>, log: seq<Event>)
    requires Reports(results, log)
    ensures (exists id :: id in results && results[id].terminal.None?) <==> !Finished(log, results.Keys)
  {
    forall id | id in results
      ensures results[id].terminal.Some? <==> Ended(Mine(log, id))
    {
      EndedHasTerminal(Mine(log, id));
    }
  }

  method NoteLine(results: map<int, Outcome>, e: Event) returns (r: Result<map<int, Outcome>, Error>)
    ensures r.Success? <==> Readable(e.line)
    ensures r.Success? ==> r.value == LenientStep(results, e)
  {
    match e.line {
      case Marker(id, _, kind, engine, voice) =>
        if id in results && kind == STARTED && results[id].source.None? {
          return Success(results[id := results[id].(source := Some(Source(e.at, engine, voice)))]);
        }
      case Terminal(id, status) =>
        if id in results {
          return Success(results[id := results[id].(terminal := Some(End(e.at, status)))]);
        }
      case Malformed => return Failure(BadRecord);
      case Closed => return Failure(OutputClosed);
      case Ignored =>
    }
    return Success(results);
  }

  lemma UnreadableBeforeStop(output: seq<Event>, ids: set<int>, position: nat)
    requires position < |output| && !Finished(output[..position], ids)
    requires forall k {:trigger output[..k]} :: 0 <= k < position ==> !Finished(output[..k], ids)
    requires !Readable(output[position].line)
    ensures forall n :: !LenientlyAccepted(output, ids, n)
  {
  }

  lemma NeverStopsLeniently(output: seq<Event>, ids: set<int>, position: nat)
    requires position == |output| && !Finished(output[..position], ids)
    requires forall k {:trigger output[..k]} :: 0 <= k < position ==> !Finished(output[..k], ids)
    ensures forall n :: !LenientlyAccepted(output, ids, n)
  {
  }

  method WaitForDispatches(output: seq<Event>, identifiers: set<int>)
    returns (r: Result<map<int, Outcome>, Error>, ghost stop: nat)
    ensures r.Success? ==> LenientlyAccepted(output, identifiers, stop)
    ensures r.Failure? ==> forall n :: !LenientlyAccepted(output, identifiers, n)
    ensures r.Success? ==> r.value.Keys == identifiers && Reports(r.value, output[..stop])
  {
    var results := map id | id in identifiers :: Outcome(None, None);
    var position := 0;
    stop := 0;
    assert output[..0] == [];
    while exists id :: id in results && results[id].terminal.None?
      invariant results.Keys == identifiers
      invariant position <= |output| && Reports(results, output[..position]) && AllReadable(output[..position])
      invariant forall k {:trigger output[..k]} :: 0 <= k < position ==> !Finished(output[..k], identifiers)
      decreases |output| - position
    {
      FinishedResults(results, output[..position]);
      if position == |output| {
        NeverStopsLeniently(output, identifiers, position);
        return Failure(TimedOut), 0;
      }
      var noted := NoteLine(results, output[position]);
      if noted.Failure? {
        UnreadableBeforeStop(output, identifiers, position);
        return Failure(noted.error), 0;
      }
      assert output[..position + 1] == output[..position] + [output[position]];
      ReportsStep(results, output[..position], output[position]);
      results := noted.value;
      position := position + 1;
    }
    FinishedResults(results, output[..position]);
    stop := position;
    return Success(results), stop;
  }

  /**
   Strictness only removes logs: whatever the strict collector accepts, the lenient one accepts
   at the same stop, and reports the same source, engine, voice and status for every dispatch.
   */
  lemma StrictRefinesLenient(output: seq<Event>, ids: set<int>, quiet: nat, n: nat,
                             id: int, h: History, o: Outcome)
    requires StrictlyAccepted(output, ids, quiet, n) && id in ids
    requires HistoryOf(h, Mine(output[..Consumed(output, n, quiet)], id))
    requires OutcomeOf(o, Mine(output[..n], id))
    ensures LenientlyAccepted(output, ids, n)
    ensures o.source == h.source && o.terminal == h.terminal && h.terminal.Some?
  {
    var end := Consumed(output, n, quiet);
    assert output[..end][..n] == output[..n];
    assert forall e :: e in output[..n] ==> e in output[..end];
    EndedIsFinal(output[..end], n, id);
    EndedHasTerminal(Mine(output[..n], id));
  }

  /** The event at `p` breaks the order of its dispatch, or is none of the server's records. */
  ghost predicate Breaks(log: seq<Event>, ids: set<int>, p: nat)
    requires p < |log|
  {
    match log[p].line
    case Marker(id, sequence, _, _, _) =>
      var own := Mine(log[..p], id);
      id in ids && (Ended(own) || sequence != Some(|own| + 1))
    case Terminal(id, _) => id in ids && Ended(Mine(log[..p], id))
    case Ignored => false
    case _ => true
  }

  lemma OrderlyStep(log: seq<Event>, e: Event, ids: set<int>)
    ensures Orderly(log + [e], ids) <==> Orderly(log, ids) && !Breaks(log + [e], ids, |log|)
  {
    assert (log + [e])[..|log|] == log && e in log + [e];
    forall id | id in ids
      ensures WellOrdered(Mine(log + [e], id)) <==>
              WellOrdered(Mine(log, id)) && !(Owns(e.line, id) && Breaks(log + [e], ids, |log|))
    {
      MineAppend(log, e, id);
      if Owns(e.line, id) {
        OrderedPrefix(Mine(log, id), e);
        if WellOrdered(Mine(log, id)) { OrderStep(Mine(log, id), e); }
      }
    }
    assert AllReadable(log + [e]) <==> AllReadable(log) && Readable(e.line);
  }

  /** A log is orderly exactly when no event breaks the order. */
  lemma {:induction false} OrderlyExact(log: seq<Event>, ids: set<int>)
    ensures Orderly(log, ids) <==> forall p :: 0 <= p < |log| ==> !Breaks(log, ids, p)
  {
    if log != [] {
      var front, last := log[..|log| - 1], log[|log| - 1];
      assert log == front + [last];
      OrderlyExact(front, ids);
      OrderlyStep(front, last, ids);
      forall p | 0 <= p < |front|
        ensures Breaks(log, ids, p) <==> Breaks(front, ids, p)
      {
        assert log[..p] == front[..p];
      }
    }
  }

  /**
   The two differ exactly on order: at the same stop, the strict collector refuses just the outputs in which
   some event it reads, the quiet window included, breaks the order of its dispatch.
   */
  lemma StrictnessIsOrder(output: seq<Event>, ids: set<int>, quiet: nat, n: nat)
    ensures StrictlyAccepted(output, ids, quiet, n) <==>
            LenientlyAccepted(output, ids, n) && Orderly(output[..Consumed(output, n, quiet)], ids)
    ensures StrictlyAccepted(output, ids, quiet, n) <==>
            && LenientlyAccepted(output, ids, n)
            && forall p :: 0 <= p < Consumed(output, n, quiet) ==> !Breaks(output, ids, p)
  {
    if n <= |output| {
      var end := Consumed(output, n, quiet);
      OrderlyExact(output[..end], ids);
      forall p | 0 <= p < end
        ensures Breaks(output[..end], ids, p) <==> Breaks(output, ids, p)
      {
        assert output[..end][..p] == output[..p];
      }
      if StrictlyAccepted(output, ids, quiet, n) {
        OrderlyUpTo(output, ids, end, n);
      }
    }
  }
}
