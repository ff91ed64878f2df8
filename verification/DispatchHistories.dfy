/**
 What the dispatch monitors of tools/stress_server.py and tools/benchmark_server.py report, read off the whole
 output by position: no dispatch is looked at by itself first.
 */
module DispatchHistories {
  import opened Wrappers
  import opened DispatchMonitor

  predicate MarkerAt(log: seq<Event>, p: int, id: int) {
    0 <= p < |log| && log[p].line.Marker? && log[p].line.id == id
  }

  predicate TerminalAt(log: seq<Event>, p: int, id: int) {
    0 <= p < |log| && log[p].line.Terminal? && log[p].line.id == id
  }

  /** A marker that announces audio. */
  predicate StartAt(log: seq<Event>, p: int, id: int) {
    MarkerAt(log, p, id) && log[p].line.kind == "utterance_started"
  }

  /** The places of a dispatch's markers before a point. */
  function MarkersBefore(log: seq<Event>, p: nat, id: int): set<int> {
    set q | 0 <= q < p && MarkerAt(log, q, id)
  }

  // ---------------------------------------------------------------- a dispatch's own records

  lemma {:induction false} MineCounts(log: seq<Event>, id: int)
    ensures Ended(Mine(log, id)) <==> exists q :: TerminalAt(log, q, id)
    ensures !Ended(Mine(log, id)) ==> |Mine(log, id)| == |MarkersBefore(log, |log|, id)|
  {
    if log == [] {
      assert MarkersBefore(log, 0, id) == {};
    } else {
      var front, last := log[..|log| - 1], log[|log| - 1];
      assert log == front + [last];
      MineCounts(front, id);
      MineAppend(front, last, id);
      if Owns(last.line, id) { EndedStep(Mine(front, id), last); }
      assert forall q :: 0 <= q < |front| ==> front[q] == log[q];
      assert TerminalAt(log, |front|, id) <==> last.line.Terminal? && last.line.id == id;
      assert forall q :: TerminalAt(front, q, id) <==> TerminalAt(log, q, id) && q < |front|;
      assert MarkersBefore(log, |log|, id)
          == MarkersBefore(front, |front|, id) + if MarkerAt(log, |front|, id) then {|front|} else {};
    }
  }

  /** What a prefix of the output says of a dispatch. */
  lemma PrefixCounts(log: seq<Event>, p: nat, id: int)
    requires p <= |log|
    ensures Ended(Mine(log[..p], id)) <==> exists q :: q < p && TerminalAt(log, q, id)
    ensures !Ended(Mine(log[..p], id)) ==> |Mine(log[..p], id)| == |MarkersBefore(log, p, id)|
  {
    hide Mine, Ended;
    MineCounts(log[..p], id);
    assert forall q :: TerminalAt(log[..p], q, id) <==> q < p && TerminalAt(log, q, id);
    assert MarkersBefore(log[..p], p, id) == MarkersBefore(log, p, id);
  }

  /** A record stands among its dispatch's records where those before it end. */
  lemma MinePlace(log: seq<Event>, p: nat, id: int)
    requires p < |log| && Owns(log[p].line, id)
    ensures |Mine(log[..p], id)| < |Mine(log, id)| && Mine(log, id)[|Mine(log[..p], id)|] == log[p]
  {
    assert log[..p + 1] == log[..p] + [log[p]];
    MineAppend(log[..p], log[p], id);
    MineGrows(log, p + 1, id);
    hide Mine;
    var early := Mine(log[..p + 1], id);
    assert Mine(log, id)[..|early|][|early| - 1] == Mine(log, id)[|early| - 1];
  }

  // ---------------------------------------------------------------- order

  /**
   An output is orderly exactly when it has no malformed record and no end mark, every marker of a tracked
   dispatch has the next number, and nothing of a dispatch follows its terminal.
   */
  lemma OrderExact(log: seq<Event>, ids: set<int>)
    ensures Orderly(log, ids) <==>
            && (forall e :: e in log ==> !e.line.Malformed? && !e.line.Closed?)
            && (forall p, id :: id in ids && MarkerAt(log, p, id) ==>
                  log[p].line.sequence == Some(|MarkersBefore(log, p, id)| + 1))
            && forall p, q, id :: id in ids && (MarkerAt(log, p, id) || TerminalAt(log, p, id)) && q < p ==>
                 !TerminalAt(log, q, id)
  {
    OrderlyExact(log, ids);
    hide Orderly, Mine, Ended;
    forall p | 0 <= p < |log|
      ensures Breaks(log, ids, p) <==> OutOfOrder(log, ids, p)
    {
      match log[p].line
      case Marker(id, _, _, _, _) => PrefixCounts(log, p, id);
      case Terminal(id, _) => PrefixCounts(log, p, id);
      case _ =>
    }
    InOrderThroughout(log, ids);
  }

  lemma InOrderThroughout(log: seq<Event>, ids: set<int>)
    ensures (forall p :: 0 <= p < |log| ==> !OutOfOrder(log, ids, p)) <==>
            && (forall e :: e in log ==> !e.line.Malformed? && !e.line.Closed?)
            && (forall p, id :: id in ids && MarkerAt(log, p, id) ==>
                  log[p].line.sequence == Some(|MarkersBefore(log, p, id)| + 1))
            && forall p, q, id :: id in ids && (MarkerAt(log, p, id) || TerminalAt(log, p, id)) && q < p ==>
                 !TerminalAt(log, q, id)
  {
    hide MarkersBefore;
    if forall p :: 0 <= p < |log| ==> !OutOfOrder(log, ids, p) {
      forall e | e in log
        ensures !e.line.Malformed? && !e.line.Closed?
      {
        var p :| 0 <= p < |log| && log[p] == e;
        assert !OutOfOrder(log, ids, p);
      }
      forall p, id | id in ids && (MarkerAt(log, p, id) || TerminalAt(log, p, id))
        ensures MarkerAt(log, p, id) ==> log[p].line.sequence == Some(|MarkersBefore(log, p, id)| + 1)
        ensures forall q :: q < p ==> !TerminalAt(log, q, id)
      {
        assert !OutOfOrder(log, ids, p);
      }
    } else {
      var p :| 0 <= p < |log| && OutOfOrder(log, ids, p);
      var line := log[p].line;
      assert log[p] in log;
      if line.Marker? { assert MarkerAt(log, p, line.id); }
      if line.Terminal? { assert TerminalAt(log, p, line.id); }
    }
  }

  /** What is wrong with one event. */
  ghost predicate OutOfOrder(log: seq<Event>, ids: set<int>, p: nat)
    requires p < |log|
  {
    var line := log[p].line;
    || line.Malformed? || line.Closed?
    || (line.Marker? && line.id in ids && line.sequence != Some(|MarkersBefore(log, p, line.id)| + 1))
    || ((line.Marker? || line.Terminal?) && line.id in ids && exists q :: q < p && TerminalAt(log, q, line.id))
  }

  /** Every dispatch has a terminal before a point. */
  ghost predicate AllEnded(output: seq<Event>, ids: set<int>, k: int) {
    forall id :: id in ids ==> exists q :: q < k && TerminalAt(output, q, id)
  }

  /** The monitors stop at the first such point. */
  lemma StopExact(output: seq<Event>, ids: set<int>, n: nat)
    ensures StopsAt(output, ids, n) <==>
            n <= |output| && AllEnded(output, ids, n) && forall k :: 0 <= k < n ==> !AllEnded(output, ids, k)
  {
    if n <= |output| {
      forall k | 0 <= k <= n
        ensures Finished(output[..k], ids) <==> AllEnded(output, ids, k)
      {
        forall id | id in ids
          ensures Ended(Mine(output[..k], id)) <==> exists q :: q < k && TerminalAt(output, q, id)
        {
          PrefixCounts(output, k, id);
        }
      }
    }
  }

  /** The lenient monitor asks for nothing but readable records up to there. */
  lemma LenientExact(output: seq<Event>, ids: set<int>, n: nat)
    ensures LenientlyAccepted(output, ids, n) <==>
            StopsAt(output, ids, n)
            && forall p :: 0 <= p < n ==> !output[p].line.Malformed? && !output[p].line.Closed?
  {
    if n <= |output| {
      assert forall p :: 0 <= p < n ==> output[..n][p] == output[p];
    }
  }

  /** The strict monitor asks for order up to the end of the quiet window. */
  lemma StrictExact(output: seq<Event>, ids: set<int>, quiet: nat, n: nat)
    ensures StrictlyAccepted(output, ids, quiet, n) <==>
            && StopsAt(output, ids, n)
            && Orderly(output[..if n + quiet <= |output| then n + quiet else |output|], ids)
  {
  }

  // ---------------------------------------------------------------- what is reported

  /** The place of the first marker of a dispatch that announces audio. */
  ghost predicate FirstStart(log: seq<Event>, p: int, id: int) {
    StartAt(log, p, id) && forall q :: q < p ==> !StartAt(log, q, id)
  }

  /** The place of a dispatch's last terminal. */
  ghost predicate FinalTerminal(log: seq<Event>, p: int, id: int) {
    TerminalAt(log, p, id) && forall q :: p < q ==> !TerminalAt(log, q, id)
  }

  /** The reported source is the first marker of the dispatch that announces audio, with its time and its names. */
  lemma {:induction false} SourceExact(log: seq<Event>, id: int)
    ensures FirstSource(Mine(log, id)).Some? <==> exists p :: StartAt(log, p, id)
    ensures forall p :: FirstStart(log, p, id) ==>
              FirstSource(Mine(log, id)) == Some(Source(log[p].at, log[p].line.engine, log[p].line.voice))
  {
    if log != [] {
      var front, last := log[..|log| - 1], log[|log| - 1];
      assert log == front + [last];
      SourceExact(front, id);
      MineAppend(front, last, id);
      if Owns(last.line, id) { FirstSourceAppend(Mine(front, id), last); }
      hide Mine, FirstSource;
      assert forall q :: StartAt(front, q, id) <==> q < |front| && StartAt(log, q, id);
      if StartAt(log, |front|, id) { assert last.line.kind == STARTED; }
      forall p | FirstStart(log, p, id)
        ensures FirstSource(Mine(log, id)) == Some(Source(log[p].at, log[p].line.engine, log[p].line.voice))
      {
        if p < |front| { assert FirstStart(front, p, id); }
      }
    }
  }

  /** The reported terminal is the dispatch's last one, with its time and its status. */
  lemma {:induction false} TerminalExact(log: seq<Event>, id: int)
    ensures LastTerminal(Mine(log, id)).Some? <==> exists p :: TerminalAt(log, p, id)
    ensures forall p :: FinalTerminal(log, p, id) ==>
              LastTerminal(Mine(log, id)) == Some(End(log[p].at, log[p].line.status))
  {
    if log != [] {
      var front, last := log[..|log| - 1], log[|log| - 1];
      assert log == front + [last];
      TerminalExact(front, id);
      MineAppend(front, last, id);
      if Owns(last.line, id) { LastTerminalAppend(Mine(front, id), last); }
      if last.line.Terminal? && last.line.id == id { assert TerminalAt(log, |front|, id); }
      hide Mine, LastTerminal;
      assert forall q :: TerminalAt(front, q, id) <==> q < |front| && TerminalAt(log, q, id);
      forall p | FinalTerminal(log, p, id)
        ensures LastTerminal(Mine(log, id)) == Some(End(log[p].at, log[p].line.status))
      {
        if p < |front| {
          assert FinalTerminal(front, p, id) && !TerminalAt(log, |front|, id);
        }
      }
    }
  }

  /** The history of a dispatch in an orderly output: its numbers, its kinds in place, its start and its end. */
  lemma HistoryExact(log: seq<Event>, ids: set<int>, id: int, h: History)
    requires Orderly(log, ids) && id in ids && HistoryOf(h, Mine(log, id))
    ensures |h.sequences| == |h.kinds| && forall i :: 0 <= i < |h.sequences| ==> h.sequences[i] == i + 1
    ensures forall p :: MarkerAt(log, p, id) ==>
              |MarkersBefore(log, p, id)| < |h.kinds| && h.kinds[|MarkersBefore(log, p, id)|] == log[p].line.kind
    ensures h.source.Some? <==> exists p :: StartAt(log, p, id)
    ensures forall p :: FirstStart(log, p, id) ==>
              h.source == Some(Source(log[p].at, log[p].line.engine, log[p].line.voice))
    ensures h.terminal.Some? <==> exists p :: TerminalAt(log, p, id)
    ensures forall p :: TerminalAt(log, p, id) ==> h.terminal == Some(End(log[p].at, log[p].line.status))
    ensures h.terminalCount == if exists p :: TerminalAt(log, p, id) then 1 else 0
  {
    SourceExact(log, id);
    TerminalExact(log, id);
    MineCounts(log, id);
    OrderExact(log, ids);
    forall p | TerminalAt(log, p, id)
      ensures FinalTerminal(log, p, id)
    {
    }
    forall p | MarkerAt(log, p, id)
      ensures |MarkersBefore(log, p, id)| < |h.kinds| && h.kinds[|MarkersBefore(log, p, id)|] == log[p].line.kind
    {
      PrefixCounts(log, p, id);
      MinePlace(log, p, id);
      KindsInPlace(Mine(log, id), h, |MarkersBefore(log, p, id)|);
    }
  }

  lemma KindsInPlace(own: seq<Event>, h: History, i: nat)
    requires WellOrdered(own) && HistoryOf(h, own) && i < |own| && own[i].line.Marker?
    ensures i < |h.kinds| && h.kinds[i] == own[i].line.kind
  {
    if Ended(own) {
      var k :| 0 <= k < |own| && own[k].line.Terminal?;
      assert k == |own| - 1;
    }
  }

  /** What the lenient monitor reports, for any output. */
  lemma OutcomeExact(log: seq<Event>, id: int, o: Outcome)
    requires OutcomeOf(o, Mine(log, id))
    ensures o.source.Some? <==> exists p :: StartAt(log, p, id)
    ensures forall p :: FirstStart(log, p, id) ==>
              o.source == Some(Source(log[p].at, log[p].line.engine, log[p].line.voice))
    ensures o.terminal.Some? <==> exists p :: TerminalAt(log, p, id)
    ensures forall p :: FinalTerminal(log, p, id) ==> o.terminal == Some(End(log[p].at, log[p].line.status))
  {
    SourceExact(log, id);
    TerminalExact(log, id);
  }
}
