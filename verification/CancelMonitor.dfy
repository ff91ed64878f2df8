/**
 The two cancellation monitors: cancel_synthesis of tools/stress_helper.py, which reads frames until the
 cancelled terminal arrives, and Session.CheckCancellation of tools/WindowsHelperCancellationTests.cs, which
 checks a finished log whose synthesis has id 2 and whose cancel request has id 3.
 */
module CancelMonitor {
  import opened Wrappers

  datatype Kind =
    SynthesisStarted | AudioChunk | Markers | SynthesisCompleted | SynthesisCancelled | CancelAccepted | Error | Other

  /** `target` is the target_request_id of an acknowledgement, when there is one. */
  datatype Frame = Frame(id: int, kind: Kind, target: Option<int>)

  const SYNTHESIS_ID := 2
  const CANCEL_ID := 3

  // ---------------------------------------------------------------- the online language

  predicate Output(f: Frame, request: int) {
    f.id == request && (f.kind == AudioChunk || f.kind == Markers)
  }

  predicate Acknowledges(f: Frame, request: int, cancel: int) {
    f.id == cancel && f.kind == CancelAccepted && f.target == Some(request)
  }

  predicate Terminal(f: Frame, request: int) {
    f.id == request && f.kind == SynthesisCancelled
  }

  predicate Starts(f: Frame, request: int) {
    f.id == request && f.kind == SynthesisStarted
  }

  /** A start, any output, the acknowledgement, and the terminal at once. */
  ghost predicate OnlineTrace(t: seq<Frame>, request: int, cancel: int) {
    && |t| >= 3 && Starts(t[0], request)
    && (forall i :: 1 <= i < |t| - 2 ==> Output(t[i], request))
    && Acknowledges(t[|t| - 2], request, cancel) && Terminal(t[|t| - 1], request)
  }

  /** The online monitor returns after the frames of an online trace, and fails when no prefix is one. */
  method CancelSynthesis(frames: seq<Frame>, request: int, cancel: int) returns (consumed: Option<nat>)
    requires request != cancel
    ensures consumed.Some? ==> consumed.value <= |frames| && OnlineTrace(frames[..consumed.value], request, cancel)
    ensures consumed.None? ==> forall k :: 0 <= k <= |frames| ==> !OnlineTrace(frames[..k], request, cancel)
  {
    if |frames| == 0 || frames[0].kind == Error || frames[0].id != request || frames[0].kind != SynthesisStarted {
      forall k | 0 < k <= |frames|
        ensures !OnlineTrace(frames[..k], request, cancel)
      {
        assert frames[..k][0] == frames[0];
      }
      return None;
    }
    var acknowledged, i := false, 1;
    while i < |frames|
      invariant 1 <= i <= |frames|
      invariant Follows(frames, i, acknowledged, request, cancel)
    {
      var f := frames[i];
      StrayRejected(frames, i, acknowledged, request, cancel);
      if f.kind == Error { return None; }
      if f.id == cancel {
        if acknowledged || f.kind != CancelAccepted || f.target != Some(request) { return None; }
        acknowledged := true;
      } else if f.id == request {
        if f.kind == AudioChunk || f.kind == Markers {
          if acknowledged { return None; }
        } else if f.kind == SynthesisCancelled {
          if !acknowledged { return None; }
          return Some(i + 1);
        } else {
          return None;
        }
      } else {
        return None;
      }
      i := i + 1;
    }
    ShortRejected(frames, acknowledged, request, cancel);
    return None;
  }

  /** The first `i` frames begin an online trace that has not ended. */
  ghost predicate Follows(frames: seq<Frame>, i: nat, acknowledged: bool, request: int, cancel: int)
    requires i <= |frames|
  {
    var outputs := if acknowledged then i - 1 else i;
    && 1 <= outputs && Starts(frames[0], request)
    && (forall j :: 1 <= j < outputs ==> Output(frames[j], request))
    && (acknowledged ==> Acknowledges(frames[i - 1], request, cancel))
  }

  /** Whatever frame comes next, a longer trace needs it to be the one the monitor expects. */
  lemma StrayRejected(frames: seq<Frame>, i: nat, acknowledged: bool, request: int, cancel: int)
    requires request != cancel && i < |frames| && Follows(frames, i, acknowledged, request, cancel)
    ensures forall k :: 0 <= k <= i ==> !OnlineTrace(frames[..k], request, cancel)
    ensures acknowledged && !Terminal(frames[i], request) ==>
              forall k :: 0 <= k <= |frames| ==> !OnlineTrace(frames[..k], request, cancel)
    ensures !acknowledged && !Output(frames[i], request) && !Acknowledges(frames[i], request, cancel) ==>
              forall k :: 0 <= k <= |frames| ==> !OnlineTrace(frames[..k], request, cancel)
  {
  }

  lemma ShortRejected(frames: seq<Frame>, acknowledged: bool, request: int, cancel: int)
    requires request != cancel && Follows(frames, |frames|, acknowledged, request, cancel)
    ensures forall k :: 0 <= k <= |frames| ==> !OnlineTrace(frames[..k], request, cancel)
  {
  }

  // ---------------------------------------------------------------- the offline language

  predicate Acknowledged(f: Frame) {
    Acknowledges(f, SYNTHESIS_ID, CANCEL_ID)
  }

  predicate Cancelled(f: Frame) {
    Terminal(f, SYNTHESIS_ID)
  }

  /**
   Every cancel response is a correct acknowledgement, one of them precedes the only cancelled terminal, and
   no other frame of the synthesis fails, completes or follows an acknowledgement.
   */
  ghost predicate OfflineTrace(t: seq<Frame>) {
    && (forall i :: 0 <= i < |t| && t[i].id == CANCEL_ID ==> Acknowledged(t[i]))
    && exists c ::
         && OnlyTerminal(t, c) && AcknowledgedBefore(t, c)
         && forall i :: 0 <= i < |t| && t[i].id == SYNTHESIS_ID && i != c ==> Quiet(t, i)
  }

  ghost predicate OnlyTerminal(t: seq<Frame>, c: nat) {
    c < |t| && Cancelled(t[c]) && forall i :: 0 <= i < |t| && Cancelled(t[i]) ==> i == c
  }

  ghost predicate AcknowledgedBefore(t: seq<Frame>, c: nat)
    requires c <= |t|
  {
    exists a :: 0 <= a < c && Acknowledged(t[a])
  }

  /** A frame of the synthesis that is no terminal and comes before every acknowledgement. */
  ghost predicate Quiet(t: seq<Frame>, i: nat)
    requires i < |t|
  {
    t[i].kind != SynthesisCompleted && t[i].kind != Error && !AcknowledgedBefore(t, i)
  }

  /** The offline checker passes exactly the offline traces. */
  method CheckCancellation(t: seq<Frame>) returns (passed: bool)
    ensures passed <==> OfflineTrace(t)
  {
    var accepted, terminals := false, 0;
    for i := 0 to |t|
      invariant accepted <==> AcknowledgedBefore(t, i)
      invariant Sound(t, i)
      invariant terminals == 0 <==> forall j :: 0 <= j < i ==> !Cancelled(t[j])
      invariant terminals == 1 <==> exists c :: OnlyTerminal(t[..i], c)
      invariant terminals >= 0
    {
      var f := t[i];
      assert t[..i + 1] == t[..i] + [f];
      AcknowledgedStep(t, i);
      if f.id == CANCEL_ID && f.kind != CancelAccepted { UnsoundRejected(t, i); return false; }
      if f.id == CANCEL_ID && f.kind == CancelAccepted {
        if f.target != Some(SYNTHESIS_ID) { UnsoundRejected(t, i); return false; }
        accepted := true;
      }
      if f.id == SYNTHESIS_ID {
        if f.kind == SynthesisCancelled {
          if !accepted { UnsoundRejected(t, i); return false; }
          TerminalStep(t[..i], f, terminals);
          terminals := terminals + 1;
        } else {
          if f.kind == SynthesisCompleted || f.kind == Error { UnsoundRejected(t, i); return false; }
          if accepted { UnsoundRejected(t, i); return false; }
          OtherStep(t[..i], f);
        }
      } else {
        OtherStep(t[..i], f);
      }
    }
    assert t[..|t|] == t;
    SoundIsOffline(t);
    return accepted && terminals == 1;
  }

  /** The per-frame checks, for the first `n` frames. */
  ghost predicate Sound(t: seq<Frame>, n: nat)
    requires n <= |t|
  {
    forall i :: 0 <= i < n ==> SoundAt(t, i)
  }

  ghost predicate SoundAt(t: seq<Frame>, i: nat)
    requires i < |t|
  {
    && (t[i].id == CANCEL_ID ==> Acknowledged(t[i]))
    && (Cancelled(t[i]) ==> AcknowledgedBefore(t, i))
    && (t[i].id == SYNTHESIS_ID && !Cancelled(t[i]) ==> Quiet(t, i))
  }

  lemma AcknowledgedStep(t: seq<Frame>, i: nat)
    requires i < |t|
    ensures AcknowledgedBefore(t, i + 1) <==> AcknowledgedBefore(t, i) || Acknowledged(t[i])
  {
  }

  lemma UnsoundRejected(t: seq<Frame>, i: nat)
    requires i < |t| && !SoundAt(t, i)
    ensures !OfflineTrace(t)
  {
  }

  lemma TerminalStep(t: seq<Frame>, f: Frame, terminals: int)
    requires Cancelled(f) && terminals >= 0
    requires terminals == 0 <==> forall j :: 0 <= j < |t| ==> !Cancelled(t[j])
    ensures terminals == 0 <==> exists c :: OnlyTerminal(t + [f], c)
  {
    var u := t + [f];
    assert u[|t|] == f && forall j :: 0 <= j < |t| ==> u[j] == t[j];
    if terminals == 0 {
      assert OnlyTerminal(u, |t|);
    } else {
      var j :| 0 <= j < |t| && Cancelled(t[j]);
      forall c ensures !OnlyTerminal(u, c) {
        assert Cancelled(u[j]) && Cancelled(u[|t|]);
      }
    }
  }

  lemma OtherStep(t: seq<Frame>, f: Frame)
    requires !Cancelled(f)
    ensures (exists c :: OnlyTerminal(t, c)) <==> exists c :: OnlyTerminal(t + [f], c)
  {
    var u := t + [f];
    assert u[|t|] == f && forall j :: 0 <= j < |t| ==> u[j] == t[j];
    if c :| OnlyTerminal(t, c) { assert OnlyTerminal(u, c); }
    if c :| OnlyTerminal(u, c) { assert OnlyTerminal(t, c); }
  }

  lemma SoundIsOffline(t: seq<Frame>)
    requires Sound(t, |t|)
    ensures OfflineTrace(t) <==> exists c :: OnlyTerminal(t, c)
  {
    if c :| OnlyTerminal(t, c) {
      assert SoundAt(t, c);
      forall i | 0 <= i < |t| && t[i].id == SYNTHESIS_ID && i != c
        ensures Quiet(t, i)
      {
        assert SoundAt(t, i);
      }
      forall i | 0 <= i < |t| && t[i].id == CANCEL_ID
        ensures Acknowledged(t[i])
      {
        assert SoundAt(t, i);
      }
    }
  }

  // ---------------------------------------------------------------- the languages, field by field

  lemma OnlineExact(t: seq<Frame>, request: int, cancel: int)
    ensures OnlineTrace(t, request, cancel) <==>
            && |t| >= 3 && t[0].id == request && t[0].kind == SynthesisStarted
            && (forall i :: 0 < i < |t| - 2 ==>
                  t[i].id == request && (t[i].kind == AudioChunk || t[i].kind == Markers))
            && t[|t| - 2].id == cancel && t[|t| - 2].kind == CancelAccepted && t[|t| - 2].target == Some(request)
            && t[|t| - 1].id == request && t[|t| - 1].kind == SynthesisCancelled
  {
  }

  /**
   Offline, every cancel response is an acknowledgement of request 2; the synthesis has one cancelled terminal,
   with an acknowledgement before it, and none of its other frames fails, completes or comes after one.
   */
  lemma OfflineExact(t: seq<Frame>)
    ensures OfflineTrace(t) <==>
            && (forall i :: 0 <= i < |t| && t[i].id == 3 ==> t[i].kind == CancelAccepted && t[i].target == Some(2))
            && exists c :: 0 <= c < |t| && t[c].id == 2 && t[c].kind == SynthesisCancelled
                 && (exists a :: 0 <= a < c && t[a].id == 3)
                 && forall i :: 0 <= i < |t| && t[i].id == 2 && i != c ==>
                      && t[i].kind != SynthesisCancelled && t[i].kind != SynthesisCompleted && t[i].kind != Error
                      && forall a :: 0 <= a < i ==> t[a].id != 3
  {
    if forall i :: 0 <= i < |t| && t[i].id == 3 ==> t[i].kind == CancelAccepted && t[i].target == Some(2) {
      forall n | 0 <= n <= |t|
        ensures AcknowledgedBefore(t, n) <==> exists a :: 0 <= a < n && t[a].id == 3
      {
        if a :| 0 <= a < n && t[a].id == 3 { assert Acknowledged(t[a]); }
      }
      if c :|
         && 0 <= c < |t| && t[c].id == 2 && t[c].kind == SynthesisCancelled
         && (exists a :: 0 <= a < c && t[a].id == 3)
         && forall i :: 0 <= i < |t| && t[i].id == 2 && i != c ==>
              && t[i].kind != SynthesisCancelled && t[i].kind != SynthesisCompleted && t[i].kind != Error
              && forall a :: 0 <= a < i ==> t[a].id != 3 {
        assert OnlyTerminal(t, c) && AcknowledgedBefore(t, c);
      }
    }
  }

  // ---------------------------------------------------------------- one language inside the other

  /** A renaming sends the synthesis to 2, the cancel request to 3 and every other id elsewhere. */
  ghost predicate Renames(rename: int -> int, request: int, cancel: int) {
    forall id :: (rename(id) == SYNTHESIS_ID <==> id == request) && (rename(id) == CANCEL_ID <==> id == cancel)
  }

  function RenameFrame(f: Frame, rename: int -> int): Frame {
    Frame(rename(f.id), f.kind, match f.target case Some(id) => Some(rename(id)) case None => None)
  }

  function Renamed(t: seq<Frame>, rename: int -> int): seq<Frame> {
    seq(|t|, i requires 0 <= i < |t| => RenameFrame(t[i], rename))
  }

  /** Any two distinct ids can be renamed. */
  lemma RenamingExists(request: int, cancel: int)
    requires request != cancel
    ensures exists rename: int -> int :: Renames(rename, request, cancel)
  {
    var rename := (id: int) => if id == request then 2 else if id == cancel then 3 else 4;
    assert Renames(rename, request, cancel);
  }

  lemma RenamedFrame(f: Frame, rename: int -> int, request: int, cancel: int)
    requires Renames(rename, request, cancel)
    ensures Acknowledged(RenameFrame(f, rename)) <==> Acknowledges(f, request, cancel)
    ensures Cancelled(RenameFrame(f, rename)) <==> Terminal(f, request)
  {
  }

  /** Whatever the online monitor consumes and accepts, the offline checker passes. */
  lemma OnlineIsOffline(t: seq<Frame>, rename: int -> int, request: int, cancel: int)
    requires Renames(rename, request, cancel) && OnlineTrace(t, request, cancel)
    ensures OfflineTrace(Renamed(t, rename))
  {
    var u, c := Renamed(t, rename), |t| - 1;
    forall i | 0 <= i < |t|
      ensures Acknowledged(u[i]) <==> i == c - 1
      ensures Cancelled(u[i]) <==> i == c
      ensures u[i].id == CANCEL_ID ==> i == c - 1
      ensures i != c && u[i].id == SYNTHESIS_ID ==> u[i].kind != SynthesisCompleted && u[i].kind != Error
    {
      RenamedFrame(t[i], rename, request, cancel);
    }
    assert Acknowledged(u[c - 1]) && OnlyTerminal(u, c) && AcknowledgedBefore(u, c);
    forall i | 0 <= i < |u| && u[i].id == SYNTHESIS_ID && i != c
      ensures Quiet(u, i)
    {
    }
  }

  /** What the online monitor asks beyond the offline checker. */
  ghost predicate Strict(t: seq<Frame>, request: int, cancel: int) {
    && t != [] && Starts(t[0], request) && Terminal(t[|t| - 1], request)
    && (forall i :: 0 <= i < |t| ==> t[i].id == request || t[i].id == cancel)
    && (forall a, b :: 0 <= a < |t| && 0 <= b < |t| && t[a].id == cancel && t[b].id == cancel ==> a == b)
    && (forall i :: 1 <= i < |t| - 1 && t[i].id == request ==> t[i].kind == AudioChunk || t[i].kind == Markers)
  }

  /**
   The online monitor accepts exactly the offline traces that begin with the start, hold a single cancel
   response, no foreign id and only output before the terminal, and end there.
   */
  lemma OnlineIsStrictOffline(t: seq<Frame>, rename: int -> int, request: int, cancel: int)
    requires Renames(rename, request, cancel)
    ensures OnlineTrace(t, request, cancel) <==> OfflineTrace(Renamed(t, rename)) && Strict(t, request, cancel)
  {
    var u := Renamed(t, rename);
    if OnlineTrace(t, request, cancel) {
      OnlineIsOffline(t, rename, request, cancel);
    }
    if OfflineTrace(u) && Strict(t, request, cancel) {
      StrictOfflineIsOnline(t, rename, request, cancel);
    }
  }

  lemma StrictOfflineIsOnline(t: seq<Frame>, rename: int -> int, request: int, cancel: int)
    requires Renames(rename, request, cancel) && OfflineTrace(Renamed(t, rename)) && Strict(t, request, cancel)
    ensures OnlineTrace(t, request, cancel)
  {
    var u, last := Renamed(t, rename), |t| - 1;
    var c: nat :| OnlyTerminal(u, c) && AcknowledgedBefore(u, c)
             && forall i :: 0 <= i < |u| && u[i].id == SYNTHESIS_ID && i != c ==> Quiet(u, i);
    RenamedFrame(t[last], rename, request, cancel);
    assert Cancelled(u[last]);
    var a :| 0 <= a < c && Acknowledged(u[a]);
    RenamedFrame(t[a], rename, request, cancel);
    assert a > 0;
    forall i | 0 <= i < last && t[i].id == request
      ensures i <= a
    {
      assert u[i] == RenameFrame(t[i], rename);
      assert Quiet(u, i);
    }
    var next := t[a + 1].id;
    assert next == request || next == cancel;
  }

  /** The offline checker alone does not fix the order: it passes a log without a start. */
  lemma OfflineIsWeaker()
    ensures exists t :: OfflineTrace(t) && !OnlineTrace(t, SYNTHESIS_ID, CANCEL_ID)
  {
    var t := [Frame(3, CancelAccepted, Some(2)), Frame(2, SynthesisCancelled, None)];
    assert Acknowledged(t[0]) && OnlyTerminal(t, 1) && AcknowledgedBefore(t, 1);
    assert OfflineTrace(t);
  }
}
