/**
 The parked-ask channel of src/ask.rs as an interleaving of atomic steps.

 A park is one future returned by the engine-side `resolve`; it inserts a one-shot sender
 into the shared map, sends its ask on the bounded queue, and waits for its answer. The
 approver pops asks, answers by id, and finally goes away in two steps: its `Drop` body
 drains the map, and only afterwards its receiver field is dropped and closes the queue.

 A schedule is an arbitrary sequence of actions; an action that is not possible in the
 current state changes nothing, so every sequence of actions is a legal interleaving.
 */
module Ask {
  import opened Common

  type Id = nat
  type Park = nat

  datatype Resolution = Approve | Deny

  /**
   Where a park's future is. `Ending` is the stretch between the decision to end and the drop
   of the guard that removes the slot; an outcome of `None` is a cancelled future.
   */
  datatype Phase =
    | Idle
    | Sending
    | Waiting
    | Ending(outcome: Option<Resolution>)
    | Ended(outcome: Option<Resolution>)

  /** `cell` is the one-shot's value and `listening` says that its receiver still exists. */
  datatype Future = Future(id: Id, phase: Phase, cell: Option<Resolution>, listening: bool)

  datatype ApproverPhase = Live | Drained | Closed

  datatype Event =
    | Inserted(park: Park)
    | Sent(park: Park)
    | SendFailed(park: Park)
    | Delivered(park: Park)
    | Answered(park: Park, resolution: Resolution)  // a call to the approver's `resolve` that returned true
    | MapDrained
    | QueueClosed

  datatype Channel = Channel(
    capacity: nat,
    parks: seq<Future>,
    awaiting: map<Id, Park>,
    queue: seq<Park>,
    approver: ApproverPhase,
    log: seq<Event>)

  datatype Action =
    | Start(park: Park)
    | PollSend(park: Park)
    | PollReceive(park: Park)
    | Cancel(park: Park)
    | DropGuard(park: Park)
    | NextPending
    | Resolve(id: Id, resolution: Resolution)
    | DrainMap
    | CloseQueue

  // ---------------------------------------------------------------- the steps

  function Init(capacity: nat, ids: seq<Id>): Channel {
    Channel(Max(capacity, 1), seq(|ids|, p requires 0 <= p < |ids| => Future(ids[p], Idle, None, false)),
            map[], [], Live, [])
  }

  predicate InPhase(s: Channel, p: Park, phase: Phase) {
    p < |s.parks| && s.parks[p].phase == phase
  }

  /** The slot of `p` is in the map: its sender has been neither used nor dropped. */
  predicate HasSlot(s: Channel, p: Park)
    requires p < |s.parks|
  {
    s.parks[p].id in s.awaiting && s.awaiting[s.parks[p].id] == p
  }

  function StartStep(s: Channel, p: Park): Channel
    requires InPhase(s, p, Idle)
  {
    s.(parks := s.parks[p := s.parks[p].(phase := Sending, listening := true)],
       awaiting := s.awaiting[s.parks[p].id := p],
       log := s.log + [Inserted(p)])
  }

  function PollSendStep(s: Channel, p: Park): Channel
    requires InPhase(s, p, Sending)
  {
    if s.approver == Closed then
      s.(parks := s.parks[p := s.parks[p].(phase := Ending(Some(Deny)))], log := s.log + [SendFailed(p)])
    else if |s.queue| < s.capacity then
      s.(parks := s.parks[p := s.parks[p].(phase := Waiting)],
         queue := s.queue + [p],
         log := s.log + [Sent(p)])
    else
      s
  }

  /** What polling the one-shot receiver yields: its value, the loss of its sender, or nothing yet. */
  function Ready(s: Channel, p: Park): Option<Resolution>
    requires p < |s.parks|
  {
    if s.parks[p].cell.Some? then s.parks[p].cell
    else if HasSlot(s, p) then None
    else Some(Deny)
  }

  function PollReceiveStep(s: Channel, p: Park): Channel
    requires InPhase(s, p, Waiting)
  {
    if Ready(s, p).Some? then
      s.(parks := s.parks[p := s.parks[p].(phase := Ending(Ready(s, p)), listening := false)])
    else
      s
  }

  /** Dropping the future: at `send` the receiver outlives the guard, at `receive` it goes first. */
  function CancelStep(s: Channel, p: Park): Channel
    requires p < |s.parks|
  {
    match s.parks[p].phase
    case Idle => s.(parks := s.parks[p := s.parks[p].(phase := Ended(None))])
    case Sending => s.(parks := s.parks[p := s.parks[p].(phase := Ending(None))])
    case Waiting => s.(parks := s.parks[p := s.parks[p].(phase := Ending(None), listening := false)])
    case _ => s
  }

  function DropGuardStep(s: Channel, p: Park): Channel
    requires p < |s.parks| && s.parks[p].phase.Ending?
  {
    s.(parks := s.parks[p := s.parks[p].(phase := Ended(s.parks[p].phase.outcome), listening := false)],
       awaiting := s.awaiting - {s.parks[p].id})
  }

  function NextPendingStep(s: Channel): Channel
    requires s.queue != []
  {
    s.(queue := s.queue[1..], log := s.log + [Delivered(s.queue[0])])
  }

  /** Whether answering `id` now reaches a receiver: the value the approver's `resolve` returns. */
  predicate Accepts(s: Channel, id: Id) {
    id in s.awaiting && s.awaiting[id] < |s.parks| && s.parks[s.awaiting[id]].listening
  }

  function ResolveStep(s: Channel, id: Id, r: Resolution): Channel {
    if Accepts(s, id) then
      var p := s.awaiting[id];
      s.(parks := s.parks[p := s.parks[p].(cell := Some(r))],
         awaiting := s.awaiting - {id},
         log := s.log + [Answered(p, r)])
    else
      s.(awaiting := s.awaiting - {id})
  }

  /** A park once the drain has sent `Deny` to its slot, unless the slot is one of those `left` to do. */
  function Drain(s: Channel, left: set<Id>, p: Park): Future
    requires p < |s.parks|
  {
    var f := s.parks[p];
    if HasSlot(s, p) && f.id !in left && f.listening then f.(cell := Some(Deny)) else f
  }

  /** Every slot is sent `Deny`; a send to a dropped receiver is lost. */
  function DrainStep(s: Channel): Channel {
    s.(parks := seq(|s.parks|, p requires 0 <= p < |s.parks| => Drain(s, {}, p)),
       awaiting := map[],
       approver := Drained,
       log := s.log + [MapDrained])
  }

  function CloseStep(s: Channel): Channel {
    s.(queue := [], approver := Closed, log := s.log + [QueueClosed])
  }

  function Step(s: Channel, a: Action): (t: Channel)
    ensures |t.parks| == |s.parks| && t.capacity == s.capacity
    ensures forall p: Park :: p < |s.parks| ==> t.parks[p].id == s.parks[p].id
    ensures t.log == s.log || (t.log != [] && t.log == s.log + [t.log[|t.log| - 1]])
  {
    match a
    case Start(p) => if InPhase(s, p, Idle) then StartStep(s, p) else s
    case PollSend(p) => if InPhase(s, p, Sending) then PollSendStep(s, p) else s
    case PollReceive(p) => if InPhase(s, p, Waiting) then PollReceiveStep(s, p) else s
    case Cancel(p) => if p < |s.parks| then CancelStep(s, p) else s
    case DropGuard(p) => if p < |s.parks| && s.parks[p].phase.Ending? then DropGuardStep(s, p) else s
    case NextPending => if s.approver == Live && s.queue != [] then NextPendingStep(s) else s
    case Resolve(id, r) => if s.approver == Live then ResolveStep(s, id, r) else s
    case DrainMap => if s.approver == Live then DrainStep(s) else s
    case CloseQueue => if s.approver == Drained then CloseStep(s) else s
  }

  function After(s: Channel, schedule: seq<Action>): (t: Channel)
    ensures |t.parks| == |s.parks| && t.capacity == s.capacity
    ensures forall p: Park :: p < |s.parks| ==> t.parks[p].id == s.parks[p].id
    decreases |schedule|
  {
    if schedule == [] then s else After(Step(s, schedule[0]), schedule[1..])
  }

  function Reached(capacity: nat, ids: seq<Id>, schedule: seq<Action>): (t: Channel)
    ensures |t.parks| == |ids| && forall p: Park :: p < |ids| ==> t.parks[p].id == ids[p]
  {
    After(Init(capacity, ids), schedule)
  }

  // ---------------------------------------------------------------- vocabulary

  ghost predicate Distinct(ids: seq<Id>) {
    forall i, j :: 0 <= i < j < |ids| ==> ids[i] != ids[j]
  }

  ghost predicate DistinctAsks(s: Channel) {
    forall p, q :: 0 <= p < q < |s.parks| ==> s.parks[p].id != s.parks[q].id
  }

  predicate GuardLive(f: Future) {
    f.phase.Sending? || f.phase.Waiting? || f.phase.Ending?
  }

  function Outcome(f: Future): Option<Option<Resolution>> {
    match f.phase
    case Ending(o) => Some(o)
    case Ended(o) => Some(o)
    case _ => None
  }

  /** Some occurrence of `first` in the log is followed by an occurrence of `second`. */
  predicate Before(log: seq<Event>, first: Event, second: Event) {
    log != [] &&
    var init, last := log[..|log| - 1], log[|log| - 1];
    Before(init, first, second) || (last == second && first in init)
  }

  lemma {:induction false} BeforeMeaning(log: seq<Event>, first: Event, second: Event)
    ensures Before(log, first, second) <==>
      exists i, j :: 0 <= i < j < |log| && log[i] == first && log[j] == second
  {
    if log != [] {
      BeforeMeaning(log[..|log| - 1], first, second);
    }
  }

  lemma {:induction false} BeforeLogged(log: seq<Event>, a: Event, b: Event)
    ensures Before(log, a, b) ==> a in log && b in log
  {
    BeforeMeaning(log, a, b);
  }

  lemma BeforeAppend(log: seq<Event>, e: Event, a: Event, b: Event)
    ensures Before(log + [e], a, b) <==> Before(log, a, b) || (b == e && a in log)
  {
    assert (log + [e])[..|log|] == log;
  }

  // ---------------------------------------------------------------- invariants

  /** What the log says of one park, against the phase it is in. */
  ghost predicate Recorded(s: Channel, p: Park)
    requires p < |s.parks|
  {
    var phase := s.parks[p].phase;
    && (phase.Idle? ==> Inserted(p) !in s.log && SendFailed(p) !in s.log)
    && (phase.Idle? || phase.Sending? ==> Sent(p) !in s.log)
    && (phase.Waiting? ==> Sent(p) in s.log)
    && (GuardLive(s.parks[p]) ==> Inserted(p) in s.log)
    && (phase.Sending? || phase.Waiting? ==> SendFailed(p) !in s.log)
    && (Sent(p) in s.log ==> SendFailed(p) !in s.log)
    && (Delivered(p) in s.log || p in s.queue ==> Sent(p) in s.log)
    && (SendFailed(p) in s.log ==> s.approver == Closed)
  }

  /** What one park's one-shot holds and what it may return, whether or not ask ids are distinct. */
  ghost predicate Settled(s: Channel, p: Park)
    requires p < |s.parks|
  {
    var f := s.parks[p];
    && (f.phase.Idle? ==> f.cell == None)
    && (f.phase.Sending? || f.phase.Waiting? ==> f.listening)
    && (f.phase.Idle? || f.phase.Ended? ==> !f.listening)
    && (forall r :: Answered(p, r) in s.log ==> f.cell == Some(r))
    && (f.cell.Some? ==> Answered(p, f.cell.value) in s.log || (f.cell == Some(Deny) && MapDrained in s.log))
    && (Outcome(f).Some? && Outcome(f).value.Some? ==> OutcomeOk(s, p, Outcome(f).value.value))
  }

  ghost predicate ParkOk(s: Channel, p: Park)
    requires p < |s.parks|
  {
    Recorded(s, p) && Settled(s, p)
  }

  /** A resolution is the park's one-shot value, or a `Deny` for a failed send or a lost sender. */
  ghost predicate OutcomeOk(s: Channel, p: Park, r: Resolution)
    requires p < |s.parks|
  {
    || s.parks[p].cell == Some(r)
    || (r == Deny && SendFailed(p) in s.log)
    || (r == Deny && s.parks[p].cell == None && !HasSlot(s, p))
  }

  ghost predicate MapOk(s: Channel) {
    forall id :: id in s.awaiting ==>
      && s.awaiting[id] < |s.parks|
      && s.parks[s.awaiting[id]].id == id
      && GuardLive(s.parks[s.awaiting[id]])
      && s.parks[s.awaiting[id]].cell == None
  }

  ghost predicate LogOk(s: Channel) {
    && (s.approver == Live <==> MapDrained !in s.log)
    && (s.approver == Closed <==> QueueClosed in s.log)
    && (forall i, j :: 0 <= i < j < |s.log| && s.log[i].Answered? && s.log[j].Answered? ==>
          s.log[i].park != s.log[j].park)
    && (forall i :: 0 <= i < |s.log| && (s.log[i].Answered? || s.log[i].Inserted?) ==> s.log[i].park < |s.parks|)
  }

  ghost predicate Inv(s: Channel) {
    && MapOk(s)
    && LogOk(s)
    && (forall p: Park :: p < |s.parks| ==> ParkOk(s, p))
  }

  lemma StepKeepsMapOk(s: Channel, a: Action)
    requires Inv(s)
    ensures MapOk(Step(s, a))
  {
    var t := Step(s, a);
    forall id | id in t.awaiting
      ensures t.awaiting[id] < |t.parks| && t.parks[t.awaiting[id]].id == id
      ensures GuardLive(t.parks[t.awaiting[id]]) && t.parks[t.awaiting[id]].cell == None
    {
      if a.Start? && t != s && id == s.parks[a.park].id {
        assert ParkOk(s, a.park);
      } else {
        assert id in s.awaiting && t.awaiting[id] == s.awaiting[id];
      }
    }
  }

  lemma StepKeepsLogOk(s: Channel, a: Action)
    requires Inv(s)
    ensures LogOk(Step(s, a))
  {
    var t := Step(s, a);
    if a.Resolve? && t.log != s.log {
      var p := s.awaiting[a.id];
      assert ParkOk(s, p);
      forall i | 0 <= i < |s.log| && s.log[i].Answered?
        ensures s.log[i].park != p
      {
        assert Answered(s.log[i].park, s.log[i].resolution) in s.log;
      }
    }
  }

  lemma StepKeepsRecorded(s: Channel, a: Action, p: Park)
    requires p < |s.parks| && Recorded(s, p)
    ensures Recorded(Step(s, a), p)
  {
  }

  predicate EngineSide(a: Action) {
    a.Start? || a.PollSend? || a.PollReceive? || a.Cancel? || a.DropGuard?
  }

  lemma SendingStepKeepsSettled(s: Channel, a: Action, p: Park)
    requires (a.Start? || a.PollSend?) && MapOk(s)
    requires p < |s.parks| && Settled(s, p)
    ensures Settled(Step(s, a), p)
  {
  }

  lemma EndingStepKeepsSettled(s: Channel, a: Action, p: Park)
    requires (a.PollReceive? || a.Cancel? || a.DropGuard?) && MapOk(s)
    requires p < |s.parks| && Settled(s, p)
    ensures Settled(Step(s, a), p)
  {
  }

  lemma ApproverStepKeepsSettled(s: Channel, a: Action, p: Park)
    requires !EngineSide(a) && MapOk(s) && (s.approver == Live ==> MapDrained !in s.log)
    requires SendFailed(p) in s.log ==> s.approver == Closed
    requires p < |s.parks| && Settled(s, p)
    ensures Settled(Step(s, a), p)
  {
  }

  lemma StepKeepsInv(s: Channel, a: Action)
    requires Inv(s)
    ensures Inv(Step(s, a))
  {
    StepKeepsMapOk(s, a);
    StepKeepsLogOk(s, a);
    forall p: Park | p < |s.parks|
      ensures ParkOk(Step(s, a), p)
    {
      assert ParkOk(s, p);
      StepKeepsRecorded(s, a, p);
      if a.Start? || a.PollSend? {
        SendingStepKeepsSettled(s, a, p);
      } else if EngineSide(a) {
        EndingStepKeepsSettled(s, a, p);
      } else {
        ApproverStepKeepsSettled(s, a, p);
      }
    }
  }

  lemma {:induction false} AfterKeepsInv(s: Channel, schedule: seq<Action>)
    requires Inv(s)
    ensures Inv(After(s, schedule))
    decreases |schedule|
  {
    if schedule != [] {
      StepKeepsInv(s, schedule[0]);
      AfterKeepsInv(Step(s, schedule[0]), schedule[1..]);
    }
  }

  /** What distinct ask ids add: a park that still listens and has no value owns its slot. */
  ghost predicate SlotOk(s: Channel, p: Park)
    requires p < |s.parks|
  {
    var f := s.parks[p];
    && (f.listening && f.cell == None ==> HasSlot(s, p))
    && (Before(s.log, MapDrained, Inserted(p)) ==> f.cell == None)
    && (s.approver != Live && HasSlot(s, p) ==> Before(s.log, MapDrained, Inserted(p)))
    && (s.approver == Closed && f.phase.Waiting? ==> Before(s.log, Sent(p), QueueClosed))
  }

  ghost predicate DistinctInv(s: Channel) {
    && Inv(s)
    && DistinctAsks(s)
    && forall p: Park :: p < |s.parks| ==> SlotOk(s, p)
  }

  lemma StepKeepsSlot(s: Channel, a: Action, p: Park)
    requires Inv(s) && DistinctAsks(s) && p < |s.parks| && SlotOk(s, p)
    ensures var t := Step(s, a); var f := t.parks[p];
      f.listening && f.cell == None ==> HasSlot(t, p)
  {
    assert ParkOk(s, p);
  }

  lemma StepKeepsLateCellEmpty(s: Channel, a: Action, p: Park)
    requires s.approver == Live ==> MapDrained !in s.log
    requires p < |s.parks| && (s.parks[p].phase.Idle? ==> s.parks[p].cell == None)
    requires Before(s.log, MapDrained, Inserted(p)) ==> s.parks[p].cell == None
    ensures var t := Step(s, a);
      Before(t.log, MapDrained, Inserted(p)) ==> t.parks[p].cell == None
  {
    LateIn(s, Step(s, a), p);
    CellAfterDrain(s, a, p);
  }

  /** A late insertion is one of the log so far, or the newest event after a drain. */
  lemma LateIn(s: Channel, t: Channel, p: Park)
    requires t.log == s.log || (t.log != [] && t.log == s.log + [t.log[|t.log| - 1]])
    ensures Before(t.log, MapDrained, Inserted(p)) <==>
      Before(s.log, MapDrained, Inserted(p)) || (MapDrained in s.log && t.log == s.log + [Inserted(p)])
    ensures Before(s.log, MapDrained, Inserted(p)) ==> MapDrained in s.log
  {
    BeforeLogged(s.log, MapDrained, Inserted(p));
    if t.log != s.log {
      BeforeAppend(s.log, t.log[|t.log| - 1], MapDrained, Inserted(p));
    }
  }

  lemma CellAfterDrain(s: Channel, a: Action, p: Park)
    requires p < |s.parks|
    ensures s.approver != Live ==> Step(s, a).parks[p].cell == s.parks[p].cell
    ensures Step(s, a).log == s.log + [Inserted(p)] ==> s.parks[p].phase.Idle?
  {
  }

  lemma StepKeepsLateSlot(s: Channel, a: Action, p: Park)
    requires LogOk(s) && DistinctAsks(s) && p < |s.parks|
    requires s.approver != Live && HasSlot(s, p) ==> Before(s.log, MapDrained, Inserted(p))
    ensures var t := Step(s, a);
      t.approver != Live && HasSlot(t, p) ==> Before(t.log, MapDrained, Inserted(p))
  {
    LateIn(s, Step(s, a), p);
    SlotAfterDrain(s, a, p);
  }

  /** The drain leaves no slot; after it a slot is an old one or the one just inserted. */
  lemma SlotAfterDrain(s: Channel, a: Action, p: Park)
    requires DistinctAsks(s) && p < |s.parks|
    ensures var t := Step(s, a);
      t.approver != Live && HasSlot(t, p) ==> s.approver != Live && (HasSlot(s, p) || t.log == s.log + [Inserted(p)])
  {
  }

  /** Nothing starts to wait on a closed channel, and only the close closes it. */
  lemma WaitingWhenClosed(s: Channel, a: Action, p: Park)
    requires p < |s.parks|
    ensures var t := Step(s, a);
      t.approver == Closed && t.parks[p].phase.Waiting? ==>
        s.parks[p].phase.Waiting? && (s.approver == Closed || t.log == s.log + [QueueClosed])
  {
  }

  lemma StepKeepsCloseOrder(s: Channel, a: Action, p: Park)
    requires p < |s.parks| && Recorded(s, p)
    requires s.approver == Closed && s.parks[p].phase.Waiting? ==> Before(s.log, Sent(p), QueueClosed)
    ensures var t := Step(s, a);
      t.approver == Closed && t.parks[p].phase.Waiting? ==> Before(t.log, Sent(p), QueueClosed)
  {
    WaitingWhenClosed(s, a, p);
    LogGrows(s, Step(s, a), p);
  }

  lemma LogGrows(s: Channel, t: Channel, p: Park)
    requires t.log == s.log || (t.log != [] && t.log == s.log + [t.log[|t.log| - 1]])
    ensures Before(s.log, Sent(p), QueueClosed) ==> Before(t.log, Sent(p), QueueClosed)
    ensures Sent(p) in s.log && t.log == s.log + [QueueClosed] ==> Before(t.log, Sent(p), QueueClosed)
  {
    if t.log != s.log {
      BeforeAppend(s.log, t.log[|t.log| - 1], Sent(p), QueueClosed);
    }
  }

  lemma StepKeepsDistinctInv(s: Channel, a: Action)
    requires DistinctInv(s)
    ensures DistinctInv(Step(s, a))
  {
    StepKeepsInv(s, a);
    forall p: Park | p < |s.parks|
      ensures SlotOk(Step(s, a), p)
    {
      assert ParkOk(s, p);
      StepKeepsSlot(s, a, p);
      StepKeepsLateCellEmpty(s, a, p);
      StepKeepsLateSlot(s, a, p);
      StepKeepsCloseOrder(s, a, p);
    }
  }

  lemma {:induction false} AfterKeepsDistinctInv(s: Channel, schedule: seq<Action>)
    requires DistinctInv(s)
    ensures DistinctInv(After(s, schedule))
    decreases |schedule|
  {
    if schedule != [] {
      StepKeepsDistinctInv(s, schedule[0]);
      AfterKeepsDistinctInv(Step(s, schedule[0]), schedule[1..]);
    }
  }

  // ---------------------------------------------------------------- safety

  /** Fail closed, even when ask ids collide: no run is approved without an accepted approval of that very park. */
  lemma ApprovedOnlyByAnswer(capacity: nat, ids: seq<Id>, schedule: seq<Action>, p: Park)
    requires p < |ids|
    ensures var s := Reached(capacity, ids, schedule);
      Outcome(s.parks[p]) == Some(Some(Approve)) ==> Answered(p, Approve) in s.log
  {
    AfterKeepsInv(Init(capacity, ids), schedule);
    assert ParkOk(Reached(capacity, ids, schedule), p);
  }

  /** Each park is answered at most once, and with distinct ask ids so is each id. */
  lemma AnsweredAtMostOnce(capacity: nat, ids: seq<Id>, schedule: seq<Action>, i: nat, j: nat)
    requires var log := Reached(capacity, ids, schedule).log;
      i < |log| && j < |log| && log[i].Answered? && log[j].Answered?
    ensures var log := Reached(capacity, ids, schedule).log;
      log[i].park == log[j].park ==> i == j
    ensures var log := Reached(capacity, ids, schedule).log;
      && log[i].park < |ids| && log[j].park < |ids|
      && (Distinct(ids) && ids[log[i].park] == ids[log[j].park] ==> i == j)
  {
    AfterKeepsInv(Init(capacity, ids), schedule);
  }

  /** Parked on its ask, or dropped at the send with its receiver still alive, and not answered yet. */
  ghost predicate Answerable(s: Channel, p: Park)
    requires p < |s.parks|
  {
    var f := s.parks[p];
    && (f.phase.Sending? || f.phase.Waiting? || (f.phase.Ending? && f.listening))
    && Inserted(p) in s.log && forall x :: Answered(p, x) !in s.log
  }

  lemma AnswerableIff(s: Channel, p: Park)
    requires DistinctInv(s) && s.approver == Live && p < |s.parks|
    ensures Answerable(s, p) <==> HasSlot(s, p) && s.parks[p].listening
  {
    assert ParkOk(s, p) && SlotOk(s, p);
  }

  /** While the approver is there its answer is accepted if and only if a park of that id can be answered. */
  lemma AnswerAcceptedIff(capacity: nat, ids: seq<Id>, schedule: seq<Action>, id: Id, r: Resolution, p: Park)
    requires Distinct(ids) && Reached(capacity, ids, schedule).approver == Live && p < |ids|
    ensures var s := Reached(capacity, ids, schedule);
      Step(s, Resolve(id, r)).log == s.log + [Answered(p, r)] <==> ids[p] == id && Answerable(s, p)
  {
    AfterKeepsDistinctInv(Init(capacity, ids), schedule);
    var s := Reached(capacity, ids, schedule);
    var t := Step(s, Resolve(id, r));
    AnswerableIff(s, p);
    if t.log == s.log + [Answered(p, r)] {
      assert t.log[|s.log|] == Answered(p, r);
    }
  }

  /** Accepted, it is that park's answer: waiting, the park returns it at its next poll. Refused, it changes nothing. */
  lemma AnswerTakesEffect(capacity: nat, ids: seq<Id>, schedule: seq<Action>, r: Resolution, p: Park)
    requires Distinct(ids) && Reached(capacity, ids, schedule).approver == Live && p < |ids|
    ensures var s := Reached(capacity, ids, schedule); var t := Step(s, Resolve(ids[p], r));
      Answerable(s, p) && s.parks[p].phase.Waiting? ==> Step(t, PollReceive(p)).parks[p].phase == Ending(Some(r))
    ensures var s := Reached(capacity, ids, schedule); var t := Step(s, Resolve(ids[p], r));
      !Answerable(s, p) ==> t.log == s.log && t.parks == s.parks
  {
    AfterKeepsDistinctInv(Init(capacity, ids), schedule);
    AnswerableIff(Reached(capacity, ids, schedule), p);
  }

  /**
   An accepted answer to a delivered ask is what its park returns: either it is waiting on
   exactly that value, so that its next poll ends it with that answer, or it has ended with
   that answer, or it was cancelled.
   */
  lemma DeliveredAnswerIsReturned(capacity: nat, ids: seq<Id>, schedule: seq<Action>, p: Park, r: Resolution)
    requires p < |ids|
    requires var s := Reached(capacity, ids, schedule); Delivered(p) in s.log && Answered(p, r) in s.log
    ensures var s := Reached(capacity, ids, schedule);
      || (s.parks[p].phase == Waiting && Step(s, PollReceive(p)).parks[p].phase == Ending(Some(r)))
      || Outcome(s.parks[p]) == Some(Some(r))
      || Outcome(s.parks[p]) == Some(None)
  {
    AfterKeepsInv(Init(capacity, ids), schedule);
    var s := Reached(capacity, ids, schedule);
    assert ParkOk(s, p);
    assert s.parks[p].cell == Some(r) && Sent(p) in s.log;
    match s.parks[p].phase
    case Idle =>
    case Sending =>
    case Waiting => assert Ready(s, p) == Some(r);
    case Ending(o) => assert o.Some? ==> OutcomeOk(s, p, o.value);
    case Ended(o) => assert o.Some? ==> OutcomeOk(s, p, o.value);
  }

  /** Only the future's own cancellation ends it without a resolution. */
  lemma {:induction false} OnlyCancelledEndsUnresolved(s: Channel, schedule: seq<Action>, p: Park)
    requires p < |s.parks| && Outcome(s.parks[p]) != Some(None)
    requires Cancel(p) !in schedule
    ensures Outcome(After(s, schedule).parks[p]) != Some(None)
    decreases |schedule|
  {
    if schedule != [] {
      assert schedule[0] in schedule;
      OthersEndResolved(s, schedule[0], p);
      OnlyCancelledEndsUnresolved(Step(s, schedule[0]), schedule[1..], p);
    }
  }

  lemma OthersEndResolved(s: Channel, a: Action, p: Park)
    requires p < |s.parks| && Outcome(s.parks[p]) != Some(None) && a != Cancel(p)
    ensures Outcome(Step(s, a).parks[p]) != Some(None)
  {
  }

  /** A resolution is returned only after the send was tried, and after a failed send it is `Deny`. */
  ghost predicate EndingOk(s: Channel, p: Park)
    requires p < |s.parks|
  {
    Outcome(s.parks[p]).Some? && Outcome(s.parks[p]).value.Some? ==>
      && (Sent(p) in s.log || SendFailed(p) in s.log)
      && (SendFailed(p) in s.log ==> Outcome(s.parks[p]).value.value == Deny)
  }

  lemma StepKeepsEnding(s: Channel, a: Action, p: Park)
    requires Inv(s) && p < |s.parks| && EndingOk(s, p)
    ensures EndingOk(Step(s, a), p)
  {
    assert Recorded(s, p) by {
      assert ParkOk(s, p);
    }
  }

  lemma {:induction false} AfterKeepsEnding(s: Channel, schedule: seq<Action>, p: Park)
    requires Inv(s) && p < |s.parks| && EndingOk(s, p)
    ensures EndingOk(After(s, schedule), p)
    decreases |schedule|
  {
    if schedule != [] {
      StepKeepsInv(s, schedule[0]);
      StepKeepsEnding(s, schedule[0], p);
      AfterKeepsEnding(Step(s, schedule[0]), schedule[1..], p);
    }
  }

  /**
   When an accepted answer is what the park returns: a park that was not cancelled returns it if
   and only if the answer is `Deny` or the park had completed its send.
   */
  lemma AnswerReturnedIff(capacity: nat, ids: seq<Id>, schedule: seq<Action>, p: Park, r: Resolution, x: Resolution)
    requires p < |ids|
    requires var s := Reached(capacity, ids, schedule);
      Answered(p, r) in s.log && Outcome(s.parks[p]) == Some(Some(x))
    ensures x == r <==> r == Deny || Sent(p) in Reached(capacity, ids, schedule).log
  {
    var s := Reached(capacity, ids, schedule);
    AfterKeepsInv(Init(capacity, ids), schedule);
    AfterKeepsEnding(Init(capacity, ids), schedule, p);
    assert ParkOk(s, p);
    assert OutcomeOk(s, p, x);
  }

  /**
   The condition on the send is needed. Whatever was answered to a park that has not sent its ask
   yet, an approver that goes away before the send makes the park return `Deny`.
   */
  lemma UndeliveredAnswerIsLost(s: Channel, p: Park)
    requires s.approver == Live && InPhase(s, p, Sending) && s.parks[p].cell.Some? && !HasSlot(s, p)
    ensures var t := After(s, [DrainMap, CloseQueue, PollSend(p)]);
      Outcome(t.parks[p]) == Some(Some(Deny)) && t.parks[p].cell == s.parks[p].cell
  {
    var s1 := Step(s, DrainMap);
    assert s1.parks[p] == s.parks[p];
    AfterCons(s, DrainMap, [CloseQueue, PollSend(p)]);
    AfterCons(s1, CloseQueue, [PollSend(p)]);
    AfterCons(Step(s1, CloseQueue), PollSend(p), []);
  }

  /** A reachable case: the approver answers id 7 before its park got to send, then goes away. */
  lemma UndeliveredApprovalIsReachable()
    ensures var s := Reached(1, [7], [Start(0), Resolve(7, Approve)]);
      && Answered(0, Approve) in s.log && s.approver == Live
      && InPhase(s, 0, Sending) && s.parks[0].cell == Some(Approve) && !HasSlot(s, 0)
  {
    var s0 := Init(1, [7]);
    AfterCons(s0, Start(0), [Resolve(7, Approve)]);
    AfterCons(Step(s0, Start(0)), Resolve(7, Approve), []);
  }

  lemma AfterCons(s: Channel, a: Action, rest: seq<Action>)
    ensures After(s, [a] + rest) == After(Step(s, a), rest)
  {
    assert ([a] + rest)[1..] == rest;
  }

  /** Every slot in the map belongs to exactly one park, and that park's guard is still live. */
  lemma SlotsHaveOneLiveGuard(capacity: nat, ids: seq<Id>, schedule: seq<Action>, id: Id)
    requires Distinct(ids) && id in Reached(capacity, ids, schedule).awaiting
    ensures var s := Reached(capacity, ids, schedule);
      && s.awaiting[id] < |ids| && GuardLive(s.parks[s.awaiting[id]])
      && forall p: Park :: p < |ids| ==> (s.parks[p].id == id <==> p == s.awaiting[id])
  {
    AfterKeepsDistinctInv(Init(capacity, ids), schedule);
    AfterKeepsInv(Init(capacity, ids), schedule);
  }

  // ---------------------------------------------------------------- the approver going away

  /** Waiting with nothing that can still answer it once the channel is closed. */
  predicate Stranded(s: Channel, p: Park) {
    InPhase(s, p, Waiting) && Ready(s, p) == None && s.approver == Closed
  }

  /** The step with which an unfinished park's future is polled next. */
  function Poll(s: Channel, p: Park): Action
    requires p < |s.parks|
  {
    if s.parks[p].phase == Sending then PollSend(p) else PollReceive(p)
  }

  lemma PollReceiveEnds(s: Channel, p: Park)
    requires InPhase(s, p, Waiting) && Ready(s, p).Some?
    ensures Step(s, PollReceive(p)).parks[p].phase == Ending(Ready(s, p))
  {
  }

  /**
   The exact reach of the approver's promise to deny what it leaves behind. Once the channel
   is closed, a park that has not ended is stranded if and only if it inserted its slot after
   the drain and completed its send before the close.
   */
  lemma StrandedExactlyInTheWindow(capacity: nat, ids: seq<Id>, schedule: seq<Action>, p: Park)
    requires Distinct(ids) && p < |ids|
    requires var s := Reached(capacity, ids, schedule);
      s.approver == Closed && (s.parks[p].phase == Sending || s.parks[p].phase == Waiting)
    ensures var s := Reached(capacity, ids, schedule);
      Stranded(s, p) <==>
        Before(s.log, MapDrained, Inserted(p)) && Before(s.log, Sent(p), QueueClosed)
  {
    AfterKeepsDistinctInv(Init(capacity, ids), schedule);
    var s := Reached(capacity, ids, schedule);
    assert ParkOk(s, p) && SlotOk(s, p);
    BeforeLogged(s.log, Sent(p), QueueClosed);
  }

  /** Every other park ends at its next poll: with the approval it was given, or else with `Deny`. */
  lemma LeftBehindIsDenied(capacity: nat, ids: seq<Id>, schedule: seq<Action>, p: Park)
    requires p < |ids|
    requires var s := Reached(capacity, ids, schedule);
      s.approver == Closed && (s.parks[p].phase == Sending || s.parks[p].phase == Waiting) && !Stranded(s, p)
    ensures var s := Reached(capacity, ids, schedule);
      Step(s, Poll(s, p)).parks[p].phase ==
        Ending(Some(if s.parks[p].phase == Waiting && Answered(p, Approve) in s.log then Approve else Deny))
  {
    AfterKeepsInv(Init(capacity, ids), schedule);
    var s := Reached(capacity, ids, schedule);
    assert ParkOk(s, p);
    if s.parks[p].phase == Waiting {
      PollReceiveEnds(s, p);
      match Ready(s, p).value
      case Approve => assert s.parks[p].cell == Some(Approve);
      case Deny =>
    }
  }

  /** A stranded park stays stranded under every continuation that does not cancel it. */
  lemma {:induction false} StrandedForever(s: Channel, schedule: seq<Action>, p: Park)
    requires DistinctInv(s) && Stranded(s, p)
    requires Cancel(p) !in schedule
    ensures DistinctInv(After(s, schedule)) && Stranded(After(s, schedule), p)
    decreases |schedule|
  {
    if schedule != [] {
      var a := schedule[0];
      assert a in schedule;
      StepKeepsDistinctInv(s, a);
      StrandedStep(s, a, p);
      StrandedForever(Step(s, a), schedule[1..], p);
    }
  }

  lemma StrandedStep(s: Channel, a: Action, p: Park)
    requires DistinctInv(s) && Stranded(s, p) && a != Cancel(p)
    ensures Stranded(Step(s, a), p)
  {
    assert ParkOk(s, p) && SlotOk(s, p);
  }

  /** The window is real: a park that starts between the drain and the close is never answered. */
  lemma WindowStrandsAPark()
    ensures Stranded(Reached(1, [7], [DrainMap, Start(0), PollSend(0), CloseQueue]), 0)
  {
    var s0 := Init(1, [7]);
    var s1 := Step(s0, DrainMap);
    var s2 := Step(s1, Start(0));
    var s3 := Step(s2, PollSend(0));
    assert s1.parks[0] == Future(7, Idle, None, false);
    assert s2.parks[0] == Future(7, Sending, None, true) && HasSlot(s2, 0);
    assert s3.parks[0] == Future(7, Waiting, None, true) && HasSlot(s3, 0);
    assert Stranded(Step(s3, CloseQueue), 0);
    After4(s0, DrainMap, Start(0), PollSend(0), CloseQueue);
  }

  lemma After4(s: Channel, a: Action, b: Action, c: Action, d: Action)
    ensures After(s, [a, b, c, d]) == Step(Step(Step(Step(s, a), b), c), d)
  {
    AfterCons(s, a, [b, c, d]);
    AfterCons(Step(s, a), b, [c, d]);
    AfterCons(Step(Step(s, a), b), c, [d]);
    AfterCons(Step(Step(Step(s, a), b), c), d, []);
  }

  // ---------------------------------------------------------------- delivery

  function SentParks(log: seq<Event>): seq<Park> {
    if log == [] then []
    else
      var e := log[|log| - 1];
      SentParks(log[..|log| - 1]) + if e.Sent? then [e.park] else []
  }

  function DeliveredParks(log: seq<Event>): seq<Park> {
    if log == [] then []
    else
      var e := log[|log| - 1];
      DeliveredParks(log[..|log| - 1]) + if e.Delivered? then [e.park] else []
  }

  lemma LogAppend(log: seq<Event>, e: Event)
    ensures SentParks(log + [e]) == SentParks(log) + if e.Sent? then [e.park] else []
    ensures DeliveredParks(log + [e]) == DeliveredParks(log) + if e.Delivered? then [e.park] else []
  {
    assert (log + [e])[..|log|] == log;
  }

  ghost predicate QueueOk(s: Channel) {
    && |s.queue| <= s.capacity
    && (s.approver != Closed ==> SentParks(s.log) == DeliveredParks(s.log) + s.queue)
    && DeliveredParks(s.log) <= SentParks(s.log)
  }

  lemma SendKeepsQueue(s: Channel, p: Park)
    requires QueueOk(s) && InPhase(s, p, Sending)
    ensures QueueOk(PollSendStep(s, p))
  {
    LogAppend(s.log, Sent(p));
    LogAppend(s.log, SendFailed(p));
  }

  lemma DeliveryKeepsQueue(s: Channel)
    requires QueueOk(s) && s.queue != [] && s.approver == Live
    ensures QueueOk(NextPendingStep(s))
  {
    LogAppend(s.log, Delivered(s.queue[0]));
    assert [s.queue[0]] + s.queue[1..] == s.queue;
  }

  lemma OtherEventsKeepQueue(s: Channel, t: Channel)
    requires QueueOk(s) && t.capacity == s.capacity && |t.queue| <= |s.queue|
    requires t.approver == Closed || (s.approver != Closed && t.queue == s.queue)
    requires t.log == s.log || (exists e: Event :: t.log == s.log + [e] && !e.Sent? && !e.Delivered?)
    ensures QueueOk(t)
  {
    if t.log != s.log {
      var e: Event :| t.log == s.log + [e] && !e.Sent? && !e.Delivered?;
      LogAppend(s.log, e);
    }
  }

  lemma StepKeepsQueueOk(s: Channel, a: Action)
    requires QueueOk(s)
    ensures QueueOk(Step(s, a))
  {
    match a
    case PollSend(p) =>
      if InPhase(s, p, Sending) {
        SendKeepsQueue(s, p);
      }
    case NextPending =>
      if s.approver == Live && s.queue != [] {
        DeliveryKeepsQueue(s);
      }
    case _ => OtherEventsKeepQueue(s, Step(s, a));
  }

  lemma {:induction false} AfterKeepsQueueOk(s: Channel, schedule: seq<Action>)
    requires QueueOk(s)
    ensures QueueOk(After(s, schedule))
    decreases |schedule|
  {
    if schedule != [] {
      StepKeepsQueueOk(s, schedule[0]);
      AfterKeepsQueueOk(Step(s, schedule[0]), schedule[1..]);
    }
  }

  /**
   Asks are delivered in the order they were sent and none is lost or invented: until the
   close, what was sent is what was delivered followed by what the queue holds, and the queue
   never exceeds the channel's capacity.
   */
  lemma DeliveryIsFifo(capacity: nat, ids: seq<Id>, schedule: seq<Action>)
    ensures var s := Reached(capacity, ids, schedule);
      && |s.queue| <= Max(capacity, 1)
      && (s.approver != Closed ==> SentParks(s.log) == DeliveredParks(s.log) + s.queue)
      && DeliveredParks(s.log) <= SentParks(s.log)
  {
    AfterKeepsQueueOk(Init(capacity, ids), schedule);
  }

  // ---------------------------------------------------------------- the receiving end

  /** One poll of the queue's receiver: the oldest ask, nothing yet, or the end because no sender is left. */
  datatype Received = Got(park: Park) | Pending | NoSender

  function Running(parks: seq<Future>): nat {
    if parks == [] then 0
    else Running(parks[..|parks| - 1]) + if GuardLive(parks[|parks| - 1]) then 1 else 0
  }

  /**
   Who keeps the one sender alive, which lives in the shared state: the engine's `handles` (resolver
   handles and futures not polled yet), the running parks, and the approver itself until it is gone.
   */
  function Owners(s: Channel, handles: nat): nat {
    handles + Running(s.parks) + if s.approver != Closed then 1 else 0
  }

  function Receive(s: Channel, handles: nat): Received {
    if s.queue != [] then Got(s.queue[0])
    else if Owners(s, handles) == 0 then NoSender
    else Pending
  }

  ghost predicate AllEnded(s: Channel) {
    forall p: Park :: p < |s.parks| ==> s.parks[p].phase.Ended?
  }

  /**
   The end of the asks is never reported: with the engine gone, every park ended and the queue empty,
   the approver's own share of the sender keeps it waiting under every continuation of its life.
   */
  lemma {:induction false} ReceiveNeverEnds(s: Channel, schedule: seq<Action>)
    requires AllEnded(s) && s.queue == [] && s.approver == Live && DrainMap !in schedule
    ensures var t := After(s, schedule);
      AllEnded(t) && t.approver == Live && Receive(t, 0) == Pending
    decreases |schedule|
  {
    if schedule != [] {
      assert schedule[0] in schedule;
      EndedStaysEnded(s, schedule[0]);
      ReceiveNeverEnds(Step(s, schedule[0]), schedule[1..]);
    }
  }

  lemma EndedStaysEnded(s: Channel, a: Action)
    requires AllEnded(s) && s.queue == [] && s.approver == Live && a != DrainMap
    ensures var t := Step(s, a);
      AllEnded(t) && t.queue == [] && t.approver == Live
  {
  }

  // ---------------------------------------------------------------- the imperative channel

  /** The shared state the parks and the approver update in place; one method per atomic step. */
  class ApprovalChannel {
    const capacity: nat
    var parks: seq<Future>
    var awaiting: map<Id, Park>
    var queue: seq<Park>
    var approver: ApproverPhase
    ghost var log: seq<Event>

    ghost function View(): Channel
      reads this
    {
      Channel(capacity, parks, awaiting, queue, approver, log)
    }

    constructor Pair(requested: nat, ids: seq<Id>)
      ensures View() == Init(requested, ids) && Inv(View())
      ensures capacity == (if requested == 0 then 1 else requested) && queue == [] && awaiting == map[]
      ensures approver == Live && |parks| == |ids|
      ensures forall p: Park :: p < |ids| ==> parks[p] == Future(ids[p], Idle, None, false)
    {
      capacity := if requested == 0 then 1 else requested;
      parks := seq(|ids|, p requires 0 <= p < |ids| => Future(ids[p], Idle, None, false));
      awaiting := map[];
      queue := [];
      approver := Live;
      log := [];
    }

    method Start(p: Park)
      requires Inv(View()) && InPhase(View(), p, Idle)
      modifies this
      ensures View() == Step(old(View()), Action.Start(p)) && Inv(View())
      ensures awaiting == old(awaiting)[old(parks[p]).id := p] && queue == old(queue)
      ensures parks == old(parks)[p := old(parks[p]).(phase := Sending, listening := true)]
    {
      StepKeepsInv(View(), Action.Start(p));
      awaiting := awaiting[parks[p].id := p];
      parks := parks[p := parks[p].(phase := Sending, listening := true)];
      log := log + [Inserted(p)];
    }

    method PollSend(p: Park) returns (ready: bool)
      requires Inv(View()) && InPhase(View(), p, Sending)
      modifies this
      ensures View() == Step(old(View()), Action.PollSend(p)) && Inv(View())
      ensures !ready <==> old(approver != Closed && |queue| >= capacity)
      ensures !ready ==> View() == old(View())
      ensures ready && approver != Closed ==> parks[p].phase == Waiting && queue == old(queue) + [p]
      ensures approver == Closed ==> parks[p].phase == Ending(Some(Deny)) && queue == old(queue)
      ensures awaiting == old(awaiting) && parks == old(parks)[p := old(parks[p]).(phase := parks[p].phase)]
    {
      StepKeepsInv(View(), Action.PollSend(p));
      if approver == Closed {
        parks := parks[p := parks[p].(phase := Ending(Some(Deny)))];
        log := log + [SendFailed(p)];
        return true;
      }
      if |queue| >= capacity {
        return false;
      }
      queue := queue + [p];
      parks := parks[p := parks[p].(phase := Waiting)];
      log := log + [Sent(p)];
      return true;
    }

    method PollReceive(p: Park) returns (ready: bool)
      requires Inv(View()) && InPhase(View(), p, Waiting)
      modifies this
      ensures View() == Step(old(View()), Action.PollReceive(p)) && Inv(View())
      ensures ready <==> old(parks[p].cell.Some? || parks[p].id !in awaiting || awaiting[parks[p].id] != p)
      ensures !ready ==> View() == old(View())
      ensures ready ==> parks == old(parks)[p := old(parks[p]).(
        phase := Ending(Some(if old(parks[p]).cell.Some? then old(parks[p]).cell.value else Deny)), listening := false)]
      ensures awaiting == old(awaiting) && queue == old(queue)
    {
      StepKeepsInv(View(), Action.PollReceive(p));
      var f := parks[p];
      if f.cell.Some? {
        parks := parks[p := f.(phase := Ending(f.cell), listening := false)];
        return true;
      }
      if f.id in awaiting && awaiting[f.id] == p {
        return false;
      }
      parks := parks[p := f.(phase := Ending(Some(Deny)), listening := false)];
      return true;
    }

    method Cancel(p: Park)
      requires Inv(View()) && p < |parks|
      modifies this
      ensures View() == Step(old(View()), Action.Cancel(p)) && Inv(View())
      ensures var f := old(parks[p]);
        parks == old(parks)[p := if f.phase.Idle? then f.(phase := Ended(None))
                                 else if f.phase.Sending? then f.(phase := Ending(None))
                                 else if f.phase.Waiting? then f.(phase := Ending(None), listening := false)
                                 else f]
      ensures awaiting == old(awaiting) && queue == old(queue)
    {
      StepKeepsInv(View(), Action.Cancel(p));
      match parks[p].phase {
        case Idle => parks := parks[p := parks[p].(phase := Ended(None))];
        case Sending => parks := parks[p := parks[p].(phase := Ending(None))];
        case Waiting => parks := parks[p := parks[p].(phase := Ending(None), listening := false)];
        case _ =>
      }
    }

    method DropGuard(p: Park)
      requires Inv(View()) && p < |parks| && parks[p].phase.Ending?
      modifies this
      ensures View() == Step(old(View()), Action.DropGuard(p)) && Inv(View())
      ensures awaiting == old(awaiting) - {parks[p].id} && queue == old(queue)
      ensures parks == old(parks)[p := old(parks[p]).(phase := Ended(old(parks[p]).phase.outcome), listening := false)]
    {
      StepKeepsInv(View(), Action.DropGuard(p));
      awaiting := awaiting - {parks[p].id};
      parks := parks[p := parks[p].(phase := Ended(parks[p].phase.outcome), listening := false)];
    }

    /** One poll of the receiver; the approver that calls it still holds the sender's state. */
    method NextPending(handles: nat) returns (next: Received)
      requires Inv(View()) && approver == Live
      modifies this
      ensures View() == Step(old(View()), Action.NextPending) && Inv(View())
      ensures next == old(Receive(View(), handles))
      ensures next == if old(queue) == [] then Pending else Got(old(queue)[0])
      ensures queue == if old(queue) == [] then [] else old(queue)[1..]
      ensures parks == old(parks) && awaiting == old(awaiting)
    {
      StepKeepsInv(View(), Action.NextPending);
      if queue == [] {
        return Pending;
      }
      next := Got(queue[0]);
      log := log + [Delivered(queue[0])];
      queue := queue[1..];
    }

    method Resolve(id: Id, r: Resolution) returns (answered: bool)
      requires Inv(View()) && approver == Live
      modifies this
      ensures View() == Step(old(View()), Action.Resolve(id, r)) && Inv(View())
      ensures answered <==> old(id in awaiting && parks[awaiting[id]].listening)
      ensures answered ==>
        var p := old(awaiting[id]);
        parks == old(parks)[p := old(parks[p]).(cell := Some(r))] && log == old(log) + [Answered(p, r)]
      ensures !answered ==> parks == old(parks) && log == old(log)
      ensures awaiting == old(awaiting) - {id} && queue == old(queue)
    {
      StepKeepsInv(View(), Action.Resolve(id, r));
      if id !in awaiting {
        assert awaiting - {id} == awaiting;
        return false;
      }
      var p := awaiting[id];
      awaiting := awaiting - {id};
      if !parks[p].listening {
        return false;
      }
      parks := parks[p := parks[p].(cell := Some(r))];
      log := log + [Answered(p, r)];
      return true;
    }

    /** The body of the approver's `Drop`: deny every slot, whatever order the map yields them in. */
    method DrainMap()
      requires Inv(View()) && approver == Live
      modifies this
      ensures View() == Step(old(View()), Action.DrainMap) && Inv(View())
      ensures awaiting == map[] && queue == old(queue) && |parks| == |old(parks)|
      ensures forall p: Park :: p < |parks| ==>
        var f := old(parks)[p];
        parks[p] == if f.listening && f.id in old(awaiting) && old(awaiting)[f.id] == p
                    then f.(cell := Some(Deny)) else f
    {
      ghost var s := View();
      StepKeepsInv(s, Action.DrainMap);
      while awaiting != map[]
        invariant capacity == s.capacity && queue == s.queue && approver == s.approver && log == s.log
        invariant |parks| == |s.parks|
        invariant forall id :: id in awaiting ==> id in s.awaiting && awaiting[id] == s.awaiting[id]
        invariant forall p: Park :: p < |parks| ==> parks[p] == Drain(s, awaiting.Keys, p)
        decreases awaiting.Keys
      {
        var id :| id in awaiting;
        var p := awaiting[id];
        awaiting := awaiting - {id};
        if parks[p].listening {
          parks := parks[p := parks[p].(cell := Some(Deny))];
        }
      }
      approver := Drained;
      log := log + [MapDrained];
      assert parks == DrainStep(s).parks;
    }

    /** The receiver field dropped after the `Drop` body: the queue closes and its asks are gone. */
    method CloseQueue()
      requires Inv(View()) && approver == Drained
      modifies this
      ensures View() == Step(old(View()), Action.CloseQueue) && Inv(View())
      ensures queue == [] && approver == Closed && parks == old(parks) && awaiting == old(awaiting)
    {
      StepKeepsInv(View(), Action.CloseQueue);
      queue := [];
      approver := Closed;
      log := log + [QueueClosed];
    }
  }
}
