// session.go: pipelined writes.  Writers and sends interleave freely; one step is one atomic
// action of the code (a load of pipeErr, a test of closed, a semaphore operation, a counter
// increment).
module PipeWrite {
  import opened Common

  // Where a Write stands: past the first error check; past the closed check, waiting for a slot;
  // holding a slot; past the second error check, about to take a number.
  datatype Stage = Begun | Waiting | Admitted | Cleared

  datatype Writer = Writer(stage: Stage, payload: Bytes)

  // author is None for the farewell request that Close sends.
  datatype Launch = Launch(seqNo: int, payload: Bytes, author: Option<nat>)

  // flights: requests in progress, true once the send has returned but its slot is still held;
  // farewell: the number of Close's own request, which holds no slot.
  datatype Pipe = Pipe(next: int, slots: nat, writers: map<nat, Writer>, flights: map<int, bool>,
                       launched: seq<Launch>, accepted: seq<Bytes>, err: Option<string>, closed: bool,
                       farewell: Option<int>, used: set<nat>)

  const FIRST := 1 // Dial used sequence number 0 itself

  const START := Pipe(FIRST, 0, map[], map[], [], [], None, false, None, {})

  datatype Step =
    | Begin(id: nat, payload: Bytes)        // Write is called: first error check
    | Enter(id: nat)                        // closed check
    | Acquire(id: nat)                      // a slot is free
    | Leave(id: nat)                        // the connection closed while waiting for a slot
    | Recheck(id: nat)                      // second error check
    | Go(id: nat)                           // sequence number, then launch
    | Returned(n: int, err: Option<string>) // a send returns
    | Release(n: int)                       // its slot is given back
    | Close
    | Farewell                              // Close's own request takes a number too

  predicate At(s: Pipe, id: nat, stage: Stage) {
    id in s.writers && s.writers[id].stage == stage
  }

  predicate Can(width: nat, s: Pipe, step: Step) {
    match step
    case Begin(id, _) => id !in s.used
    case Enter(id) => At(s, id, Begun)
    case Acquire(id) => At(s, id, Waiting) && s.slots < width
    case Leave(id) => At(s, id, Waiting) && s.closed
    case Recheck(id) => At(s, id, Admitted) && s.slots > 0
    case Go(id) => At(s, id, Cleared)
    case Returned(n, _) => n in s.flights && !s.flights[n]
    case Release(n) => n in s.flights && s.flights[n] && s.slots > 0
    case Close => !s.closed
    case Farewell => s.closed && s.farewell.None?
  }

  function Moved(s: Pipe, id: nat, stage: Stage): (r: Pipe)
    requires id in s.writers
  {
    s.(writers := s.writers[id := s.writers[id].(stage := stage)])
  }

  function Gone(s: Pipe, id: nat): (r: Pipe) {
    s.(writers := s.writers - {id})
  }

  function Launched(s: Pipe, id: nat): (r: Pipe)
    requires id in s.writers
  {
    var payload := s.writers[id].payload;
    s.(next := s.next + 1, writers := s.writers - {id}, flights := s.flights[s.next := false],
       launched := s.launched + [Launch(s.next, payload, Some(id))], accepted := s.accepted + [payload])
  }

  function Next(width: nat, s: Pipe, step: Step): (r: Pipe)
    requires Can(width, s, step)
  {
    match step
    case Begin(id, payload) =>
      var t := s.(used := s.used + {id});
      if s.err.Some? then t else t.(writers := s.writers[id := Writer(Begun, payload)])
    case Enter(id) => if s.closed then Gone(s, id) else Moved(s, id, Waiting)
    case Acquire(id) => Moved(s, id, Admitted).(slots := s.slots + 1)
    case Leave(id) => Gone(s, id)
    case Recheck(id) => if s.err.Some? then Gone(s, id).(slots := s.slots - 1) else Moved(s, id, Cleared)
    case Go(id) => Launched(s, id)
    case Returned(n, err) =>
      // Close ignores the error of its own request.
      if s.farewell == Some(n) then s.(flights := s.flights - {n})
      else s.(flights := s.flights[n := true], err := if s.err.None? then err else s.err)
    case Release(n) => s.(slots := s.slots - 1, flights := s.flights - {n})
    case Close => s.(closed := true)
    case Farewell =>
      s.(farewell := Some(s.next), next := s.next + 1, flights := s.flights[s.next := false],
         launched := s.launched + [Launch(s.next, [], None)])
  }

  ghost predicate Run(width: nat, b: seq<Pipe>, steps: seq<Step>) {
    && |b| == |steps| + 1 && b[0] == START
    && (forall i :: 0 <= i < |steps| ==> Can(width, b[i], steps[i]) && b[i + 1] == Next(width, b[i], steps[i]))
  }

  // ---- Numbering, slots and content ----

  function Payloads(launched: seq<Launch>): (b: Bytes) {
    if launched == [] then [] else Payloads(launched[..|launched| - 1]) + launched[|launched| - 1].payload
  }

  ghost predicate Numbered(s: Pipe) {
    && s.next == FIRST + |s.launched|
    && (forall i :: 0 <= i < |s.launched| ==> s.launched[i].seqNo == FIRST + i)
    && (forall n :: n in s.flights ==> FIRST <= n < s.next)
    && (s.farewell.Some? ==> FIRST <= s.farewell.value < s.next && s.closed)
    && (s.farewell.Some? && s.farewell.value in s.flights ==> !s.flights[s.farewell.value])
  }

  // The Writes that hold a slot, and the Writes past the second check.
  function Holders(s: Pipe): (r: set<nat>) {
    set id | id in s.writers && (s.writers[id].stage.Admitted? || s.writers[id].stage.Cleared?)
  }

  function ClearedOf(s: Pipe): (r: set<nat>) {
    set id | id in s.writers && s.writers[id].stage.Cleared?
  }

  // The sends that hold a slot: all but the farewell.
  function Sending(s: Pipe): (r: set<int>) {
    set n | n in s.flights && s.farewell != Some(n)
  }

  ghost predicate Slotted(width: nat, s: Pipe) {
    s.slots == |Holders(s)| + |Sending(s)| <= width
  }

  predicate Spent(s: Pipe, id: nat) {
    id in s.used && id !in s.writers
  }

  // Which writes may still be accepted, and that nobody writes twice.
  ghost predicate Owned(s: Pipe) {
    && s.writers.Keys <= s.used
    && (forall i :: 0 <= i < |s.launched| && s.launched[i].author.Some? ==>
      Spent(s, s.launched[i].author.value))
    && (forall i, j :: 0 <= i < j < |s.launched| && s.launched[i].author.Some? ==>
      s.launched[i].author != s.launched[j].author)
  }

  ghost predicate Inv(width: nat, s: Pipe) {
    Numbered(s) && Slotted(width, s) && Owned(s) && Payloads(s.launched) == Flatten(s.accepted)
  }

  // A step of a Write moves it among the holders as its slot says.
  lemma HoldersAfter(width: nat, s: Pipe, step: Step)
    requires Can(width, s, step) && s.writers.Keys <= s.used
    ensures Holders(Next(width, s, step)) == match step
      case Acquire(id) => Holders(s) + {id}
      case Recheck(id) => if s.err.Some? then Holders(s) - {id} else Holders(s)
      case Go(id) => Holders(s) - {id}
      case _ => Holders(s)
  {
  }

  lemma SendingAfter(width: nat, s: Pipe, step: Step)
    requires Can(width, s, step) && Numbered(s)
    ensures Sending(Next(width, s, step)) == match step
      case Go(id) => Sending(s) + {s.next}
      case Release(n) => Sending(s) - {n}
      case _ => Sending(s)
  {
  }

  lemma KeepsSlots(width: nat, s: Pipe, step: Step)
    requires Can(width, s, step) && Slotted(width, s) && Numbered(s) && s.writers.Keys <= s.used
    ensures Slotted(width, Next(width, s, step))
  {
    HoldersAfter(width, s, step);
    SendingAfter(width, s, step);
    match step
    case Acquire(id) => assert id !in Holders(s);
    case Recheck(id) => assert id in Holders(s);
    case Go(id) => assert id in Holders(s) && s.next !in Sending(s);
    case Release(n) => assert n in Sending(s);
    case _ =>
  }

  lemma KeepsNumbers(width: nat, s: Pipe, step: Step)
    requires Can(width, s, step) && Numbered(s)
    ensures Numbered(Next(width, s, step))
  {
  }

  lemma PayloadsSnoc(launched: seq<Launch>, l: Launch)
    ensures Payloads(launched + [l]) == Payloads(launched) + l.payload
  {
    assert (launched + [l])[..|launched|] == launched;
  }

  lemma LaunchedPayloads(s: Pipe, id: nat)
    requires id in s.writers && Payloads(s.launched) == Flatten(s.accepted)
    ensures Payloads(Launched(s, id).launched) == Flatten(Launched(s, id).accepted)
  {
    PayloadsSnoc(s.launched, Launch(s.next, s.writers[id].payload, Some(id)));
    FlattenSnoc(s.accepted, s.writers[id].payload);
  }

  lemma KeepsPayloads(width: nat, s: Pipe, step: Step)
    requires Can(width, s, step) && Payloads(s.launched) == Flatten(s.accepted)
    ensures Payloads(Next(width, s, step).launched) == Flatten(Next(width, s, step).accepted)
  {
    if step.Go? {
      LaunchedPayloads(s, step.id);
    } else if step.Farewell? {
      PayloadsSnoc(s.launched, Launch(s.next, [], None));
      assert Payloads(s.launched) + [] == Payloads(s.launched);
    } else {
      OthersLaunchNothing(width, s, step);
    }
  }

  lemma OthersLaunchNothing(width: nat, s: Pipe, step: Step)
    requires Can(width, s, step) && !step.Go? && !step.Farewell?
    ensures Next(width, s, step).launched == s.launched && Next(width, s, step).accepted == s.accepted
  {
  }

  lemma KeepsOwned(width: nat, s: Pipe, step: Step)
    requires Can(width, s, step) && Owned(s)
    ensures Owned(Next(width, s, step))
  {
    var t := Next(width, s, step);
    forall i | 0 <= i < |t.launched| && t.launched[i].author.Some?
      ensures Spent(t, t.launched[i].author.value)
    {
      assert i < |s.launched| ==> Spent(s, s.launched[i].author.value);
    }
  }

  lemma {:induction false} RunKeepsInv(width: nat, b: seq<Pipe>, steps: seq<Step>, i: nat)
    requires Run(width, b, steps) && i < |b|
    ensures Inv(width, b[i])
  {
    if i > 0 {
      RunKeepsInv(width, b, steps, i - 1);
      StepKeepsInv(width, b[i - 1], steps[i - 1]);
    }
  }

  lemma StepKeepsInv(width: nat, s: Pipe, step: Step)
    requires Can(width, s, step) && Inv(width, s)
    ensures Inv(width, Next(width, s, step))
  {
    KeepsSlots(width, s, step);
    KeepsNumbers(width, s, step);
    KeepsPayloads(width, s, step);
    KeepsOwned(width, s, step);
  }

  // For every interleaving of writers, completions, failures and a close: sequence numbers are
  // 1, 2, 3, ... with none missing or repeated, at most `width` requests are outstanding and one
  // more once the connection is closed, and the payloads in sequence order are the accepted
  // writes.
  lemma PipelineIsSound(width: nat, b: seq<Pipe>, steps: seq<Step>, i: nat)
    requires Run(width, b, steps) && i < |b|
    ensures var s := b[i];
      && (forall k :: 0 <= k < |s.launched| ==> s.launched[k].seqNo == FIRST + k)
      && |s.flights| <= (if s.closed then width + 1 else width)
      && Payloads(s.launched) == Flatten(s.accepted)
  {
    RunKeepsInv(width, b, steps, i);
    FlightsAreSending(b[i]);
  }

  lemma FlightsAreSending(s: Pipe)
    requires Numbered(s)
    ensures |s.flights| <= |Sending(s)| + (if s.closed then 1 else 0)
  {
    if s.farewell.Some? && s.farewell.value in s.flights {
      assert s.flights.Keys == Sending(s) + {s.farewell.value};
    } else {
      assert s.flights.Keys == Sending(s);
    }
  }

  // ---- Numbers on the wire ----

  const WIRE := 0x1_0000_0000

  // A request carries its number as 32 bits.
  function OnWire(n: int): (r: nat) {
    n % WIRE
  }

  // No two requests carry the same number, and none carries Dial's.
  ghost predicate ToldApart(s: Pipe) {
    && (forall k :: 0 <= k < |s.launched| ==> OnWire(s.launched[k].seqNo) != 0)
    && (forall j, k :: 0 <= j < k < |s.launched| ==> OnWire(s.launched[j].seqNo) != OnWire(s.launched[k].seqNo))
  }

  // In every run, exactly the first 2^32 - 1 requests of a connection can be told apart.
  lemma ToldApartExactlyWhen(width: nat, b: seq<Pipe>, steps: seq<Step>, i: nat)
    requires Run(width, b, steps) && i < |b|
    ensures ToldApart(b[i]) <==> |b[i].launched| < WIRE
  {
    RunKeepsInv(width, b, steps, i);
    var s := b[i];
    if |s.launched| >= WIRE {
      assert OnWire(s.launched[WIRE - 1].seqNo) == 0;
    } else {
      forall k | 0 <= k < |s.launched|
        ensures OnWire(s.launched[k].seqNo) == FIRST + k
      {
        WireNumber(s, k);
      }
    }
  }

  lemma WireNumber(s: Pipe, k: nat)
    requires Numbered(s) && k < |s.launched| < WIRE
    ensures OnWire(s.launched[k].seqNo) == FIRST + k
  {
  }

  // ---- The receiver's reordering ----

  // What a server that reorders by sequence number can pass on after receiving `got`, n numbers in.
  function InOrder(got: map<int, Bytes>, n: nat): (r: Bytes) {
    if n == 0 || FIRST + n - 1 !in got then [] else InOrder(got, n - 1) + got[FIRST + n - 1]
  }

  // got: what arrived under each number; 0 is the number of Dial's request.
  ghost predicate Received(s: Pipe, got: map<int, Bytes>) {
    forall q :: q in got && q != 0 ==> Sent(s, q, got[q])
  }

  ghost predicate Sent(s: Pipe, q: int, payload: Bytes) {
    exists k :: 0 <= k < |s.launched| && OnWire(s.launched[k].seqNo) == q && s.launched[k].payload == payload
  }

  lemma ReceivedPayload(s: Pipe, got: map<int, Bytes>, q: int)
    requires Numbered(s) && |s.launched| < WIRE && Received(s, got) && q in got && q != 0
    ensures FIRST <= q < FIRST + |s.launched| && s.launched[q - FIRST].payload == got[q]
  {
    assert Sent(s, q, got[q]);
    var k: nat :| k < |s.launched| && OnWire(s.launched[k].seqNo) == q && s.launched[k].payload == got[q];
    WireNumber(s, k);
  }

  lemma {:induction false} InOrderIsPayloads(s: Pipe, got: map<int, Bytes>, n: nat)
    requires Numbered(s) && Received(s, got) && n <= |s.launched| < WIRE
    requires forall q :: FIRST <= q < FIRST + n ==> q in got
    ensures InOrder(got, n) == Payloads(s.launched[..n])
  {
    if n > 0 {
      InOrderIsPayloads(s, got, n - 1);
      assert s.launched[..n][..n - 1] == s.launched[..n - 1];
      ReceivedPayload(s, got, FIRST + n - 1);
    }
  }

  lemma {:induction false} PayloadsPrefix(launched: seq<Launch>, n: nat)
    requires n <= |launched|
    ensures Payloads(launched[..n]) <= Payloads(launched)
  {
    if n < |launched| {
      var front := launched[..|launched| - 1];
      PayloadsPrefix(front, n);
      assert front[..n] == launched[..n];
    } else {
      assert launched[..n] == launched;
    }
  }

  // In whatever order and however partially requests arrive, the gapless part the server can
  // pass on is a prefix of the bytes accepted from the writers, and all of them once every
  // request has arrived, as long as the requests can be told apart.
  lemma ReorderingRestoresWrites(width: nat, b: seq<Pipe>, steps: seq<Step>, i: nat, got: map<int, Bytes>, n: nat)
    requires Run(width, b, steps) && i < |b| && Received(b[i], got) && n <= |b[i].launched| && ToldApart(b[i])
    requires forall q :: FIRST <= q < FIRST + n ==> q in got
    ensures InOrder(got, n) <= Flatten(b[i].accepted)
    ensures n == |b[i].launched| ==> InOrder(got, n) == Flatten(b[i].accepted)
  {
    RunKeepsInv(width, b, steps, i);
    ToldApartExactlyWhen(width, b, steps, i);
    var s := b[i];
    InOrderIsPayloads(s, got, n);
    PayloadsPrefix(s.launched, n);
    assert s.launched[..|s.launched|] == s.launched;
  }

  // ---- Errors ----

  ghost predicate Refused(s: Pipe, id: nat) {
    Spent(s, id) && forall k :: 0 <= k < |s.launched| ==> s.launched[k].author != Some(id)
  }

  // A Write begun after an error was recorded is never launched.
  lemma {:induction false} NoWriteAfterError(width: nat, b: seq<Pipe>, steps: seq<Step>, i: nat, j: nat)
    requires Run(width, b, steps) && i < |steps| && i < j < |b| && steps[i].Begin? && b[i].err.Some?
    ensures Refused(b[j], steps[i].id)
    decreases j - i
  {
    RunKeepsInv(width, b, steps, i);
    if j - 1 > i {
      NoWriteAfterError(width, b, steps, i, j - 1);
      RefusedStays(width, b[j - 1], steps[j - 1], steps[i].id);
    } else {
      TurnedAway(width, b[i], steps[i]);
    }
  }

  lemma TurnedAway(width: nat, s: Pipe, step: Step)
    requires Can(width, s, step) && step.Begin? && s.err.Some? && Owned(s)
    ensures Refused(Next(width, s, step), step.id)
  {
  }

  lemma RefusedStays(width: nat, s: Pipe, step: Step, id: nat)
    requires Can(width, s, step) && Refused(s, id)
    ensures Refused(Next(width, s, step), id)
  {
  }

  // What may happen from s, where an error has been recorded, to t.
  ghost predicate OnlyCleared(s: Pipe, t: Pipe) {
    && t.err == s.err
    && s.accepted <= t.accepted && s.launched <= t.launched
    && ClearedOf(t) <= ClearedOf(s)
    && |t.accepted| + |ClearedOf(t)| == |s.accepted| + |ClearedOf(s)|
    && (forall k :: |s.launched| <= k < |t.launched| && t.launched[k].author.Some? ==>
          t.launched[k].author.value in ClearedOf(s))
  }

  lemma ClearedAfter(width: nat, s: Pipe, step: Step)
    requires Can(width, s, step) && s.err.Some? && s.writers.Keys <= s.used
    ensures ClearedOf(Next(width, s, step)) == if step.Go? then ClearedOf(s) - {step.id} else ClearedOf(s)
  {
  }

  lemma OnlyClearedStep(width: nat, s: Pipe, t: Pipe, step: Step)
    requires OnlyCleared(s, t) && Can(width, t, step) && t.err.Some? && t.writers.Keys <= t.used
    ensures OnlyCleared(s, Next(width, t, step))
  {
    ClearedAfter(width, t, step);
    if step.Go? {
      assert step.id in ClearedOf(t);
    }
  }

  // Once an error is recorded a slot is held, or was, by the send that met it.
  ghost predicate ErrorTookSlot(width: nat, s: Pipe) {
    s.err.Some? ==> |ClearedOf(s)| < width
  }

  lemma KeepsErrorSlot(width: nat, s: Pipe, step: Step)
    requires Can(width, s, step) && Inv(width, s) && ErrorTookSlot(width, s)
    ensures ErrorTookSlot(width, Next(width, s, step))
  {
    if s.err.Some? {
      ClearedAfter(width, s, step);
    } else if Next(width, s, step).err.Some? {
      assert ClearedOf(Next(width, s, step)) == ClearedOf(s);
      ClearedHoldSlots(s);
      assert step.n in Sending(s);
    }
  }

  lemma {:induction false} RunKeepsErrorSlot(width: nat, b: seq<Pipe>, steps: seq<Step>, i: nat)
    requires Run(width, b, steps) && i < |b|
    ensures ErrorTookSlot(width, b[i])
  {
    if i > 0 {
      RunKeepsErrorSlot(width, b, steps, i - 1);
      RunKeepsInv(width, b, steps, i - 1);
      KeepsErrorSlot(width, b[i - 1], steps[i - 1]);
    }
  }

  // After the first recorded error: it stays, and the Writes still accepted are exactly those
  // already past their second check that have since taken their number; there are fewer than
  // `width` of them.
  lemma {:induction false} FirstErrorSticks(width: nat, b: seq<Pipe>, steps: seq<Step>, i: nat, j: nat)
    requires Run(width, b, steps) && i <= j < |b| && b[i].err.Some?
    ensures OnlyCleared(b[i], b[j]) && |b[j].accepted| < |b[i].accepted| + width
    decreases j - i
  {
    RunKeepsErrorSlot(width, b, steps, i);
    if i < j {
      FirstErrorSticks(width, b, steps, i, j - 1);
      RunKeepsInv(width, b, steps, j - 1);
      OnlyClearedStep(width, b[i], b[j - 1], steps[j - 1]);
    }
  }

  lemma ClearedHoldSlots(s: Pipe)
    ensures |ClearedOf(s)| <= |Holders(s)|
  {
    var rest := Holders(s) - ClearedOf(s);
    assert Holders(s) == ClearedOf(s) + rest;
  }

  // ---- A free pipeline accepts ----

  // Without an error, a close or a full window, a Write is launched with the next number.
  lemma FreeWriteIsLaunched(width: nat, s: Pipe, id: nat, payload: Bytes)
    requires id !in s.used && s.err.None? && !s.closed && s.slots < width
    ensures var s1 := Next(width, s, Begin(id, payload));
      Can(width, s1, Enter(id)) && (
        var s2 := Next(width, s1, Enter(id));
        Can(width, s2, Acquire(id)) && (
          var s3 := Next(width, s2, Acquire(id));
          Can(width, s3, Recheck(id)) && (
            var s4 := Next(width, s3, Recheck(id));
            Can(width, s4, Go(id)) && (
              var s5 := Next(width, s4, Go(id));
              && s5.launched == s.launched + [Launch(s.next, payload, Some(id))]
              && s5.accepted == s.accepted + [payload]))))
  {
  }

  // ---- Two runs ----

  ghost predicate Goes(width: nat, s: Pipe, step: Step, t: Pipe) {
    Can(width, s, step) && t == Next(width, s, step)
  }

  ghost function Rel(width: nat): (rel: (Pipe, Step, Pipe) -> bool) {
    (s, step, t) => Goes(width, s, step, t)
  }

  lemma ReachedByRun(width: nat, s: Pipe) returns (b: seq<Pipe>, steps: seq<Step>)
    requires Reach(Rel(width), START, s)
    ensures Run(width, b, steps) && b[|b| - 1] == s
  {
    b, steps :| PathTo(Rel(width), b, steps, START, s);
    forall i | 0 <= i < |steps|
      ensures Can(width, b[i], steps[i]) && b[i + 1] == Next(width, b[i], steps[i])
    {
      assert Rel(width)(b[i], steps[i], b[i + 1]);
    }
  }

  lemma OneMore(width: nat, b: seq<Pipe>, steps: seq<Step>, step: Step)
    requires Run(width, b, steps) && Can(width, b[|b| - 1], step)
    ensures Run(width, b + [Next(width, b[|b| - 1], step)], steps + [step])
  {
  }

  lemma Does(width: nat, s: Pipe, t: Pipe, step: Step)
    requires Reach(Rel(width), s, t) && Can(width, t, step)
    ensures Reach(Rel(width), s, Next(width, t, step))
  {
    ReachStep(Rel(width), t, step, Next(width, t, step));
    ReachOn(Rel(width), s, t, Next(width, t, step));
  }

  lemma Enters(width: nat, s: Pipe, id: nat, payload: Bytes) returns (t: Pipe)
    requires id !in s.used && s.err.None? && !s.closed
    ensures Reach(Rel(width), s, t)
    ensures t == s.(used := s.used + {id}, writers := s.writers[id := Writer(Waiting, payload)])
  {
    var begun := Next(width, s, Begin(id, payload));
    ReachStep(Rel(width), s, Begin(id, payload), begun);
    Does(width, s, begun, Enter(id));
    t := Next(width, begun, Enter(id));
  }

  // A Write passes its second check.
  lemma Clears(width: nat, s: Pipe, id: nat, payload: Bytes) returns (t: Pipe)
    requires id !in s.used && s.err.None? && !s.closed && s.slots < width
    ensures Reach(Rel(width), s, t)
    ensures t == s.(slots := s.slots + 1, used := s.used + {id}, writers := s.writers[id := Writer(Cleared, payload)])
  {
    t := Enters(width, s, id, payload);
    Does(width, s, t, Acquire(id));
    t := Next(width, t, Acquire(id));
    Does(width, s, t, Recheck(id));
    t := Next(width, t, Recheck(id));
  }

  function AfterSend(s: Pipe, id: nat, payload: Bytes): (t: Pipe) {
    s.(next := s.next + 1, slots := s.slots + 1, used := s.used + {id}, flights := s.flights[s.next := false],
       launched := s.launched + [Launch(s.next, payload, Some(id))], accepted := s.accepted + [payload])
  }

  lemma Sends(width: nat, s: Pipe, id: nat, payload: Bytes)
    requires id !in s.used && id !in s.writers && s.err.None? && !s.closed && s.slots < width
    ensures Reach(Rel(width), s, AfterSend(s, id, payload))
  {
    var t := Clears(width, s, id, payload);
    Does(width, s, t, Go(id));
    assert s.writers[id := Writer(Cleared, payload)] - {id} == s.writers;
    assert Next(width, t, Go(id)) == AfterSend(s, id, payload);
  }

  // With room for two, a Write can be accepted after an error was recorded: it has passed its
  // second check when an earlier send fails.
  lemma RacingWriteIsAccepted(width: nat, first: Bytes, second: Bytes, err: string)
    returns (b: seq<Pipe>, steps: seq<Step>)
    requires width >= 2
    ensures Run(width, b, steps) && |steps| > 0 && steps[|steps| - 1] == Go(1)
    ensures b[|b| - 2].err == Some(err) && b[|b| - 2].accepted == [first] && b[|b| - 1].accepted == [first, second]
  {
    var rel, s := Rel(width), AfterSend(START, 0, first);
    Sends(width, START, 0, first);
    var t := Clears(width, s, 1, second);
    ReachOn(rel, START, s, t);
    Does(width, START, t, Returned(FIRST, Some(err)));
    t := Next(width, t, Returned(FIRST, Some(err)));
    b, steps := ReachedByRun(width, t);
    OneMore(width, b, steps, Go(1));
    b, steps := b + [Next(width, t, Go(1))], steps + [Go(1)];
  }

  function Below(n: nat): (ids: set<nat>)
    ensures forall id: nat :: id in ids <==> id < n
  {
    if n == 0 then {} else Below(n - 1) + {n - 1}
  }

  // The pipe after n Writes, each sent and answered before the next.
  function Rested(n: nat, payload: nat -> Bytes): (s: Pipe) {
    Pipe(FIRST + n, 0, map[], map[], seq(n, (k: nat) => Launch(FIRST + k, payload(k), Some(k))),
         seq(n, (k: nat) => payload(k)), None, false, None, Below(n))
  }

  lemma SendsAndRests(width: nat, n: nat, payload: nat -> Bytes)
    requires width > 0
    ensures Reach(Rel(width), Rested(n, payload), Rested(n + 1, payload))
  {
    var s := Rested(n, payload);
    var t := AfterSend(s, n, payload(n));
    Sends(width, s, n, payload(n));
    Does(width, s, t, Returned(s.next, None));
    t := Next(width, t, Returned(s.next, None));
    Does(width, s, t, Release(s.next));
    t := Next(width, t, Release(s.next));
    RestsAgain(n, payload);
    assert t.flights == map[];
    assert t == Rested(n + 1, payload);
  }

  lemma RestsAgain(n: nat, payload: nat -> Bytes)
    ensures var s, t := Rested(n, payload), Rested(n + 1, payload);
      && t.launched == s.launched + [Launch(s.next, payload(n), Some(n))]
      && t.accepted == s.accepted + [payload(n)] && t.used == s.used + {n}
  {
    var s, t := Rested(n, payload), Rested(n + 1, payload);
    assert |t.launched| == n + 1 && t.launched[..n] == s.launched;
    assert |t.accepted| == n + 1 && t.accepted[..n] == s.accepted;
  }

  lemma {:induction false} RestsAfterAny(width: nat, n: nat, payload: nat -> Bytes)
    requires width > 0
    ensures Reach(Rel(width), START, Rested(n, payload))
  {
    if n == 0 {
      assert Rested(0, payload) == START;
      assert PathTo(Rel(width), [START], [], START, START);
    } else {
      RestsAfterAny(width, n - 1, payload);
      SendsAndRests(width, n - 1, payload);
      ReachOn(Rel(width), START, Rested(n - 1, payload), Rested(n, payload));
    }
  }

  // Past 2^32 - 1 requests the numbers start over: there is a run in which the request 2^32
  // places after the first can arrive in its stead, and what the server then passes on first is
  // not what was written first.
  lemma WrappedNumberMisleads(width: nat, first: Bytes, late: Bytes)
    returns (b: seq<Pipe>, steps: seq<Step>, got: map<int, Bytes>)
    requires width > 0 && first != [] && late != [] && first[0] != late[0]
    ensures Run(width, b, steps) && FIRST in got && Received(b[|b| - 1], got)
    ensures !(InOrder(got, 1) <= Flatten(b[|b| - 1].accepted))
  {
    var payload := (k: nat) => if k == 0 then first else late;
    var s := Rested(WIRE + 1, payload);
    RestsAfterAny(width, WIRE + 1, payload);
    b, steps := ReachedByRun(width, s);
    got := map[FIRST := late];
    assert OnWire(s.launched[WIRE].seqNo) == FIRST && s.launched[WIRE].payload == late;
    assert Sent(s, FIRST, got[FIRST]);
    assert InOrder(got, 1) == InOrder(got, 0) + late == late;
    assert s.accepted[0] == first;
    assert Flatten(s.accepted) == first + Flatten(s.accepted[1..]);
    assert Flatten(s.accepted)[0] == first[0];
  }
}
