/** The shared cancellation token of omnivox-audio/src/cancellation.rs and the output lifetime built on it. */
module Cancellation {

  /** The flag that every clone of a token shares. */
  class AtomicBool {
    var value: bool

    constructor ()
      ensures !value
    {
      value := false;
    }
  }

  class AtomicU64 {
    var value: nat

    constructor (start: nat)
      ensures value == start
    {
      value := start;
    }
  }

  /** A handle. */
  class CancellationToken {
    const cancelled: AtomicBool

    constructor ()
      ensures fresh(cancelled) && !cancelled.value
    {
      cancelled := new AtomicBool();
    }

    constructor Sharing(cell: AtomicBool)
      ensures cancelled == cell
    {
      cancelled := cell;
    }

    method Clone() returns (copy: CancellationToken)
      ensures fresh(copy) && copy.cancelled == cancelled
    {
      copy := new CancellationToken.Sharing(cancelled);
    }

    method Cancel()
      modifies cancelled
      ensures cancelled.value
    {
      cancelled.value := true;
    }

    predicate IsCancelled()
      reads cancelled
    {
      cancelled.value
    }

    predicate SameToken(other: CancellationToken) {
      cancelled == other.cancelled
    }
  }

  // ---------------------------------------------------------------- runs

  /** One step on the handles created so far, which are numbered from zero. */
  datatype Op = New | Clone(source: nat) | Cancel(target: nat)

  function HandleCount(ops: seq<Op>): nat {
    if ops == [] then 0 else HandleCount(ops[..|ops| - 1]) + if ops[|ops| - 1].Cancel? then 0 else 1
  }

  /** Every step names a handle that exists. */
  ghost predicate ValidRun(ops: seq<Op>) {
    ops != [] ==>
      var (before, last) := (ops[..|ops| - 1], ops[|ops| - 1]);
      && ValidRun(before)
      && match last
         case New => true
         case Clone(source) => source < HandleCount(before)
         case Cancel(target) => target < HandleCount(before)
  }

  /** The handle a handle was cloned from, all the way back. */
  ghost function Origin(ops: seq<Op>, h: nat): (o: nat)
    requires ValidRun(ops) && h < HandleCount(ops)
    ensures o <= h
  {
    var (before, last) := (ops[..|ops| - 1], ops[|ops| - 1]);
    if h < HandleCount(before) then Origin(before, h)
    else if last.Clone? then Origin(before, last.source)
    else h
  }

  /** Some step of the run cancelled a handle of the same origin. */
  ghost predicate CancelledInRun(ops: seq<Op>, origin: nat)
    requires ValidRun(ops)
  {
    exists k :: 0 <= k < |ops| && CancelsAt(ops, k, origin)
  }

  ghost predicate CancelsAt(ops: seq<Op>, k: nat, origin: nat)
    requires ValidRun(ops) && k < |ops|
  {
    ops[k].Cancel? && ops[k].target < HandleCount(ops) && Origin(ops, ops[k].target) == origin
  }

  lemma {:induction false} HandlesGrow(ops: seq<Op>, k: nat)
    requires ValidRun(ops) && k < |ops|
    ensures ops[k].Cancel? ==> ops[k].target < HandleCount(ops)
  {
    if k < |ops| - 1 {
      HandlesGrow(ops[..|ops| - 1], k);
    }
  }

  lemma CancelledStep(ops: seq<Op>, last: Op, origin: nat)
    requires ValidRun(ops) && ValidRun(ops + [last]) && origin < HandleCount(ops)
    ensures CancelledInRun(ops + [last], origin) <==>
            CancelledInRun(ops, origin) || (last.Cancel? && Origin(ops, last.target) == origin)
  {
    var all := ops + [last];
    assert all[..|ops|] == ops;
    if last.Cancel? {
      assert Origin(all, last.target) == Origin(ops, last.target);
      assert Origin(ops, last.target) == origin ==> CancelsAt(all, |ops|, origin);
    }
    forall k | 0 <= k < |ops|
      ensures CancelsAt(all, k, origin) <==> CancelsAt(ops, k, origin)
    {
      HandlesGrow(ops, k);
      if ops[k].Cancel? {
        assert Origin(all, ops[k].target) == Origin(ops, ops[k].target);
      }
    }
    if CancelledInRun(ops, origin) {
      var k :| 0 <= k < |ops| && CancelsAt(ops, k, origin);
      assert CancelsAt(all, k, origin);
    }
  }

  /** No step undoes a cancellation. */
  lemma {:induction false} CancelledKept(ops: seq<Op>, n: nat, origin: nat)
    requires ValidRun(ops) && n <= |ops| && ValidRun(ops[..n]) && origin < HandleCount(ops[..n])
    requires CancelledInRun(ops[..n], origin)
    ensures CancelledInRun(ops, origin)
    decreases |ops|
  {
    if n < |ops| {
      var before := ops[..|ops| - 1];
      assert before[..n] == ops[..n] && ops == before + [ops[|ops| - 1]];
      CountKept(before, n);
      CancelledKept(before, n, origin);
      CancelledStep(before, ops[|ops| - 1], origin);
    } else {
      assert ops[..n] == ops;
    }
  }

  lemma {:induction false} CountKept(ops: seq<Op>, n: nat)
    requires n <= |ops|
    ensures HandleCount(ops[..n]) <= HandleCount(ops)
    decreases |ops|
  {
    if n < |ops| {
      assert ops[..|ops| - 1][..n] == ops[..n];
      CountKept(ops[..|ops| - 1], n);
    } else {
      assert ops[..n] == ops;
    }
  }

  /** A handle keeps its origin as the run goes on. */
  lemma {:induction false} OriginKept(ops: seq<Op>, n: nat, h: nat)
    requires ValidRun(ops) && n <= |ops| && ValidRun(ops[..n]) && h < HandleCount(ops[..n])
    ensures h < HandleCount(ops) && Origin(ops, h) == Origin(ops[..n], h)
    decreases |ops|
  {
    if n < |ops| {
      assert ops[..|ops| - 1][..n] == ops[..n];
      OriginKept(ops[..|ops| - 1], n, h);
    } else {
      assert ops[..n] == ops;
    }
  }

  /** Sharing relates every clone to its source. */
  lemma CloneSharesOrigin(ops: seq<Op>, k: nat)
    requires ValidRun(ops) && k < |ops| && ops[k].Clone?
    ensures HandleCount(ops[..k]) < HandleCount(ops) && ops[k].source < HandleCount(ops)
    ensures Origin(ops, HandleCount(ops[..k])) == Origin(ops, ops[k].source)
  {
    PrefixRun(ops, k);
    PrefixRun(ops, k + 1);
    assert ops[..k + 1][..k] == ops[..k];
    OriginKept(ops, k + 1, HandleCount(ops[..k]));
    OriginKept(ops, k, ops[k].source);
  }

  /** And it is the least way to: an equivalence that relates each clone to its source relates equal origins. */
  lemma {:induction false} OriginIsLeast(ops: seq<Op>, related: (nat, nat) -> bool, h: nat)
    requires ValidRun(ops) && h < HandleCount(ops)
    requires forall x: nat :: related(x, x)
    requires forall x: nat, y: nat, z: nat :: related(x, y) && related(y, z) ==> related(x, z)
    requires forall k: nat :: k < |ops| && ops[k].Clone? ==> related(HandleCount(ops[..k]), ops[k].source)
    ensures related(h, Origin(ops, h))
    decreases |ops|
  {
    var before, last := ops[..|ops| - 1], ops[|ops| - 1];
    forall k: nat | k < |before| && before[k].Clone?
      ensures related(HandleCount(before[..k]), before[k].source)
    {
      assert before[..k] == ops[..k] && ops[k] == before[k];
    }
    if h < HandleCount(before) {
      OriginIsLeast(before, related, h);
    } else if last.Clone? {
      OriginIsLeast(before, related, last.source);
      assert ops[..|ops| - 1] == before && h == HandleCount(before);
      assert related(h, last.source);
    }
  }

  /** The handles reflect a run: they share a cell exactly with their origin's handles, which cancels hit. */
  ghost predicate Reflects(handles: seq<CancellationToken>, ops: seq<Op>)
    requires ValidRun(ops)
    reads set h | h in handles :: h.cancelled
  {
    && |handles| == HandleCount(ops)
    && (forall i, j :: 0 <= i < |handles| && 0 <= j < |handles| ==>
          (handles[i].cancelled == handles[j].cancelled <==> Origin(ops, i) == Origin(ops, j)))
    && (forall i :: 0 <= i < |handles| ==> (handles[i].cancelled.value <==> CancelledInRun(ops, Origin(ops, i))))
  }

  /** The cells that the handles share. */
  ghost function Cells(handles: seq<CancellationToken>): set<AtomicBool> {
    set h | h in handles :: h.cancelled
  }

  /** One step on the handles of a run. */
  method PerformStep(handles: seq<CancellationToken>, ghost ops: seq<Op>, op: Op)
    returns (after: seq<CancellationToken>)
    requires ValidRun(ops) && ValidRun(ops + [op]) && Reflects(handles, ops)
    modifies Cells(handles)
    ensures Reflects(after, ops + [op]) && handles <= after
    ensures forall c :: c in Cells(after) ==> c in Cells(handles) || fresh(c)
  {
    assert (ops + [op])[..|ops|] == ops;
    match op {
      case New =>
        var token := new CancellationToken();
        NewAdded(handles, ops, token);
        after := handles + [token];
      case Clone(source) =>
        var token := handles[source].Clone();
        CloneAdded(handles, ops, source, token);
        after := handles + [token];
      case Cancel(target) =>
        ghost var was := seq(|handles|, i requires 0 <= i < |handles| reads set h | h in handles :: h.cancelled
                                          => handles[i].cancelled.value);
        assert handles[target].cancelled in Cells(handles);
        handles[target].Cancel();
        CancelDone(handles, ops, target, was);
        after := handles;
    }
  }

  /** Any run leaves handles that share exactly by cloning, and read cancelled exactly when their origin was. */
  method Perform(ops: seq<Op>) returns (handles: seq<CancellationToken>)
    requires ValidRun(ops)
    ensures Reflects(handles, ops) && forall c :: c in Cells(handles) ==> fresh(c)
    ensures forall i, j :: 0 <= i < |handles| && 0 <= j < |handles| ==>
              (handles[i].SameToken(handles[j]) <==> Origin(ops, i) == Origin(ops, j))
    ensures forall i :: 0 <= i < |handles| ==> (handles[i].IsCancelled() <==> CancelledInRun(ops, Origin(ops, i)))
  {
    handles := [];
    for n := 0 to |ops|
      invariant ValidRun(ops[..n]) && Reflects(handles, ops[..n])
      invariant forall c :: c in Cells(handles) ==> fresh(c)
    {
      PrefixRun(ops, n + 1);
      assert ops[..n + 1] == ops[..n] + [ops[n]];
      handles := PerformStep(handles, ops[..n], ops[n]);
    }
    assert ops[..|ops|] == ops;
  }

  lemma {:induction false} PrefixRun(ops: seq<Op>, n: nat)
    requires ValidRun(ops) && n <= |ops|
    ensures ValidRun(ops[..n])
  {
    if n < |ops| {
      PrefixRun(ops[..|ops| - 1], n);
      assert ops[..|ops| - 1][..n] == ops[..n];
    } else {
      assert ops[..n] == ops;
    }
  }

  /** What the handles share and read is the same after a step that adds a handle. */
  lemma OthersKept(handles: seq<CancellationToken>, ops: seq<Op>, last: Op)
    requires ValidRun(ops) && ValidRun(ops + [last]) && Reflects(handles, ops) && !last.Cancel?
    ensures forall i :: 0 <= i < |handles| ==>
              && Origin(ops + [last], i) == Origin(ops, i) < |handles|
              && (CancelledInRun(ops + [last], Origin(ops + [last], i)) <==> CancelledInRun(ops, Origin(ops, i)))
  {
    assert (ops + [last])[..|ops|] == ops;
    forall i | 0 <= i < |handles|
      ensures Origin(ops + [last], i) == Origin(ops, i) < |handles|
      ensures CancelledInRun(ops + [last], Origin(ops + [last], i)) <==> CancelledInRun(ops, Origin(ops, i))
    {
      CancelledStep(ops, last, Origin(ops, i));
    }
  }

  lemma NewAdded(handles: seq<CancellationToken>, ops: seq<Op>, token: CancellationToken)
    requires ValidRun(ops) && ValidRun(ops + [New]) && Reflects(handles, ops)
    requires !token.cancelled.value && forall h :: h in handles ==> h.cancelled != token.cancelled
    ensures Reflects(handles + [token], ops + [New])
  {
    var all := ops + [New];
    assert all[..|ops|] == ops;
    OthersKept(handles, ops, New);
    assert Origin(all, |handles|) == |handles|;
    forall k | 0 <= k < |all|
      ensures !CancelsAt(all, k, |handles|)
    {
      HandlesGrowBefore(ops, New, k);
    }
  }

  lemma CloneAdded(handles: seq<CancellationToken>, ops: seq<Op>, source: nat, token: CancellationToken)
    requires ValidRun(ops) && ValidRun(ops + [Clone(source)]) && Reflects(handles, ops)
    requires source < |handles| && token.cancelled == handles[source].cancelled
    ensures Reflects(handles + [token], ops + [Clone(source)])
  {
    var all := ops + [Clone(source)];
    assert all[..|ops|] == ops;
    OthersKept(handles, ops, Clone(source));
    assert Origin(all, |handles|) == Origin(ops, source);
    CancelledStep(ops, Clone(source), Origin(ops, source));
  }

  /** No earlier step cancels a handle that is new. */
  lemma HandlesGrowBefore(ops: seq<Op>, last: Op, k: nat)
    requires ValidRun(ops) && ValidRun(ops + [last]) && last.New? && k < |ops| + 1
    ensures !CancelsAt(ops + [last], k, HandleCount(ops))
  {
    var all := ops + [last];
    assert all[..|ops|] == ops;
    if k < |ops| {
      HandlesGrow(ops, k);
    }
  }

  lemma CancelDone(handles: seq<CancellationToken>, ops: seq<Op>, target: nat, was: seq<bool>)
    requires ValidRun(ops) && ValidRun(ops + [Cancel(target)]) && |handles| == HandleCount(ops) == |was|
    requires target < |handles| && handles[target].cancelled.value
    requires forall i, j :: 0 <= i < |handles| && 0 <= j < |handles| ==>
               (handles[i].cancelled == handles[j].cancelled <==> Origin(ops, i) == Origin(ops, j))
    requires forall i :: 0 <= i < |handles| ==> (was[i] <==> CancelledInRun(ops, Origin(ops, i)))
    requires forall i :: 0 <= i < |handles| && handles[i].cancelled != handles[target].cancelled ==>
               handles[i].cancelled.value == was[i]
    ensures Reflects(handles, ops + [Cancel(target)])
  {
    var all := ops + [Cancel(target)];
    assert all[..|ops|] == ops;
    forall i | 0 <= i < |handles|
      ensures Origin(all, i) == Origin(ops, i)
      ensures handles[i].cancelled.value <==> CancelledInRun(all, Origin(all, i))
    {
      CancelledStep(ops, Cancel(target), Origin(ops, i));
    }
  }

  // ---------------------------------------------------------------- output lifetimes

  class OutputLifetime {
    const generation: AtomicU64
    const expected: nat
    const closed: CancellationToken

    constructor (generation: AtomicU64, expected: nat, closed: CancellationToken)
      ensures this.generation == generation && this.expected == expected && this.closed == closed
    {
      this.generation, this.expected, this.closed := generation, expected, closed;
    }

    predicate IsCancelled()
      reads generation, closed.cancelled
    {
      closed.IsCancelled() || generation.value != expected
    }
  }

  /** What happens to a lifetime: a step on some token, or the generation moving on. */
  datatype Event = Token(op: Op) | Advance(growth: nat)

  /** The token steps so far, after the run and the first `n` events. */
  function OpsAt(run: seq<Op>, events: seq<Event>, n: nat): seq<Op>
    requires n <= |events|
  {
    if n == 0 then run else Extended(OpsAt(run, events, n - 1), events[n - 1])
  }

  function Extended(ops: seq<Op>, event: Event): seq<Op> {
    match event
    case Token(op) => ops + [op]
    case Advance(_) => ops
  }

  /** The generation after the first `n` events. */
  function GenerationAt(start: nat, events: seq<Event>, n: nat): nat
    requires n <= |events|
  {
    if n == 0 then start else Advanced(GenerationAt(start, events, n - 1), events[n - 1])
  }

  function Advanced(generation: nat, event: Event): nat {
    match event
    case Token(_) => generation
    case Advance(growth) => generation + growth
  }

  /** What a lifetime over handle `h` reads after the steps `ops` of its token's run. */
  ghost predicate LifetimeCancelled(ops: seq<Op>, h: nat, generation: nat, expected: nat)
    requires ValidRun(ops) && h < HandleCount(ops)
  {
    CancelledInRun(ops, Origin(ops, h)) || generation != expected
  }

  lemma {:induction false} EventsExtend(run: seq<Op>, start: nat, events: seq<Event>, i: nat, j: nat)
    requires i <= j <= |events|
    ensures OpsAt(run, events, i) <= OpsAt(run, events, j)
    ensures GenerationAt(start, events, i) <= GenerationAt(start, events, j)
    decreases j - i
  {
    if i < j {
      EventsExtend(run, start, events, i, j - 1);
    }
  }

  /**
   A lifetime whose generation starts from the expected one or later, and that reads cancelled after some events,
   reads cancelled after any more of them, whatever they are.
   */
  lemma CancelledForever(run: seq<Op>, h: nat, start: nat, expected: nat, events: seq<Event>, i: nat, j: nat)
    requires ValidRun(run) && h < HandleCount(run) && expected <= start
    requires i <= j <= |events| && ValidRun(OpsAt(run, events, i)) && ValidRun(OpsAt(run, events, j))
    requires h < HandleCount(OpsAt(run, events, i))
    requires LifetimeCancelled(OpsAt(run, events, i), h, GenerationAt(start, events, i), expected)
    ensures h < HandleCount(OpsAt(run, events, j))
    ensures LifetimeCancelled(OpsAt(run, events, j), h, GenerationAt(start, events, j), expected)
  {
    var early, late := OpsAt(run, events, i), OpsAt(run, events, j);
    EventsExtend(run, start, events, 0, i);
    EventsExtend(run, start, events, i, j);
    assert late[..|early|] == early;
    OriginKept(late, |early|, h);
    if CancelledInRun(early, Origin(early, h)) {
      CancelledKept(late, |early|, Origin(early, h));
    }
  }

  /** One event on the handles and the generation of a lifetime. */
  method PerformEvent(handles: seq<CancellationToken>, generation: AtomicU64, event: Event, ghost ops: seq<Op>)
    returns (after: seq<CancellationToken>)
    requires ValidRun(ops) && ValidRun(Extended(ops, event)) && Reflects(handles, ops)
    modifies Cells(handles), generation
    ensures Reflects(after, Extended(ops, event)) && handles <= after
    ensures generation.value == Advanced(old(generation.value), event)
    ensures forall c :: c in Cells(after) ==> c in Cells(handles) || fresh(c)
  {
    match event {
      case Token(op) =>
        after := PerformStep(handles, ops, op);
      case Advance(growth) =>
        after := handles;
        generation.value := generation.value + growth;
    }
  }

  /** What a lifetime reads after an event that follows a run. */
  method ReadAfter(lifetime: OutputLifetime, handles: seq<CancellationToken>, h: nat, event: Event, ghost ops: seq<Op>)
    returns (after: seq<CancellationToken>, reading: bool)
    requires ValidRun(ops) && ValidRun(Extended(ops, event)) && Reflects(handles, ops)
    requires h < |handles| && lifetime.closed == handles[h]
    modifies Cells(handles), lifetime.generation
    ensures Reflects(after, Extended(ops, event)) && handles <= after
    ensures lifetime.generation.value == Advanced(old(lifetime.generation.value), event)
    ensures reading <==> LifetimeCancelled(Extended(ops, event), h, lifetime.generation.value, lifetime.expected)
    ensures forall c :: c in Cells(after) ==> c in Cells(handles) || fresh(c)
  {
    after := PerformEvent(handles, lifetime.generation, event, ops);
    reading := lifetime.IsCancelled();
  }
}
