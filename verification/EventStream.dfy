/**
  The resumable stream of operation stages: receipts are polled, stages not seen before are
  queued as events, and a client that lost its connection resumes from the id of the last
  event it saw.
 */
module EventStream {
  import opened Wrappers

  datatype Stage = Stage(sequence: nat, body: nat)

  datatype Receipt = Receipt(stages: seq<Stage>, terminal: bool)

  datatype Code = ReceiptUnavailable | WindowElapsed

  // A stage event carries the sequence number of its stage as its id.
  datatype Event = StageEvent(stage: Stage) | ErrorEvent(code: Code)

  // Everything put into the queue so far, delivered or not.
  datatype Log = Log(last: nat, events: seq<Event>, closing: bool)

  datatype Step = Received(receipt: Receipt) | Failed(code: Code)

  // ---------- What a step queues ----------

  function RecordStage(log: Log, stage: Stage): Log
  {
    if stage.sequence <= log.last then log
    else log.(last := stage.sequence, events := log.events + [StageEvent(stage)])
  }

  function RecordStages(log: Log, stages: seq<Stage>): Log
  {
    if stages == [] then log else RecordStage(RecordStages(log, stages[..|stages| - 1]), stages[|stages| - 1])
  }

  function Take(log: Log, step: Step): Log
  {
    match step
    case Received(receipt) =>
      var recorded := RecordStages(log, receipt.stages);
      recorded.(closing := recorded.closing || receipt.terminal)
    case Failed(code) => log.(events := log.events + [ErrorEvent(code)], closing := true)
  }

  function Run(start: nat, steps: seq<Step>): Log
  {
    if steps == [] then Log(start, [], false) else Take(Run(start, steps[..|steps| - 1]), steps[|steps| - 1])
  }

  function StagesOf(events: seq<Event>): seq<Stage>
  {
    if events == [] then []
    else
      var before, event := StagesOf(events[..|events| - 1]), events[|events| - 1];
      if event.StageEvent? then before + [event.stage] else before
  }

  // ---------- Sequence numbers strictly increase ----------

  ghost predicate Increasing(stages: seq<Stage>)
  {
    forall i, j :: 0 <= i < j < |stages| ==> stages[i].sequence < stages[j].sequence
  }

  // Queued stages are new, in order, and the last number covers them.
  ghost predicate InOrder(start: nat, log: Log)
  {
    start <= log.last && Between(start, StagesOf(log.events), log.last)
  }

  ghost predicate Between(start: nat, stages: seq<Stage>, last: nat)
  {
    Increasing(stages) && forall i :: 0 <= i < |stages| ==> start < stages[i].sequence <= last
  }

  lemma LargestIsAppended(start: nat, stages: seq<Stage>, last: nat, stage: Stage)
    requires Between(start, stages, last) && start <= last < stage.sequence
    ensures Between(start, stages + [stage], stage.sequence)
  {
  }

  lemma Appended(events: seq<Event>, event: Event)
    ensures StagesOf(events + [event]) == if event.StageEvent? then StagesOf(events) + [event.stage] else StagesOf(events)
  {
    assert (events + [event])[..|events|] == events;
  }

  lemma {:induction false} StagesInOrder(start: nat, log: Log, stages: seq<Stage>)
    requires InOrder(start, log)
    ensures InOrder(start, RecordStages(log, stages))
  {
    if stages != [] {
      StagesInOrder(start, log, stages[..|stages| - 1]);
      StageInOrder(start, RecordStages(log, stages[..|stages| - 1]), stages[|stages| - 1]);
    }
  }

  lemma StageInOrder(start: nat, log: Log, stage: Stage)
    requires InOrder(start, log)
    ensures InOrder(start, RecordStage(log, stage))
  {
    if stage.sequence > log.last {
      Appended(log.events, StageEvent(stage));
      LargestIsAppended(start, StagesOf(log.events), log.last, stage);
    }
  }

  /**
    For any receipts, in any order and with any repetitions, the queued sequence numbers
    strictly increase from the one the client had seen.
   */
  lemma {:induction false} SequencesIncrease(start: nat, steps: seq<Step>)
    ensures InOrder(start, Run(start, steps))
  {
    if steps != [] {
      var before, step := Run(start, steps[..|steps| - 1]), steps[|steps| - 1];
      SequencesIncrease(start, steps[..|steps| - 1]);
      match step
      case Received(receipt) => StagesInOrder(start, before, receipt.stages);
      case Failed(code) => Appended(before.events, ErrorEvent(code));
    }
  }

  // ---------- Nothing is lost ----------

  // The stages after a sequence number.
  function After(stages: seq<Stage>, n: nat): seq<Stage>
  {
    if stages == [] then []
    else
      var before, stage := After(stages[..|stages| - 1], n), stages[|stages| - 1];
      if stage.sequence > n then before + [stage] else before
  }

  function Last(n: nat, stages: seq<Stage>): nat
  {
    if stages == [] || stages[|stages| - 1].sequence <= n then n else stages[|stages| - 1].sequence
  }

  // Ordered receipts, each of which extends the one before.
  ghost predicate Growing(steps: seq<Step>)
  {
    && (forall i :: 0 <= i < |steps| ==> steps[i].Received? && Increasing(steps[i].receipt.stages))
    && (forall i :: 0 < i < |steps| ==> steps[i - 1].receipt.stages <= steps[i].receipt.stages)
  }

  function Latest(steps: seq<Step>): seq<Stage>
    requires forall i :: 0 <= i < |steps| ==> steps[i].Received?
  {
    if steps == [] then [] else steps[|steps| - 1].receipt.stages
  }

  lemma {:induction false} AfterJoin(a: seq<Stage>, b: seq<Stage>, n: nat)
    ensures After(a + b, n) == After(a, n) + After(b, n)
  {
    if b == [] {
      assert a + b == a;
    } else {
      AfterJoin(a, b[..|b| - 1], n);
      assert (a + b)[..|a + b| - 1] == a + b[..|b| - 1];
    }
  }

  lemma {:induction false} AllAfter(stages: seq<Stage>, n: nat)
    requires forall i :: 0 <= i < |stages| ==> stages[i].sequence > n
    ensures After(stages, n) == stages
  {
    if stages != [] {
      AllAfter(stages[..|stages| - 1], n);
      assert stages == stages[..|stages| - 1] + [stages[|stages| - 1]];
    }
  }

  lemma {:induction false} NoneAfter(stages: seq<Stage>, n: nat)
    requires forall i :: 0 <= i < |stages| ==> stages[i].sequence <= n
    ensures After(stages, n) == []
  {
    if stages != [] {
      NoneAfter(stages[..|stages| - 1], n);
    }
  }

  lemma {:induction false} OrderedLast(log: Log, stages: seq<Stage>)
    requires Increasing(stages)
    ensures RecordStages(log, stages).last == Last(log.last, stages)
  {
    if stages != [] {
      var before := stages[..|stages| - 1];
      OrderedLast(log, before);
      assert before != [] ==> before[|before| - 1].sequence < stages[|stages| - 1].sequence;
    }
  }

  // One ordered receipt queues the stages after the last number.
  lemma {:induction false} OrderedReceipt(log: Log, stages: seq<Stage>)
    requires Increasing(stages)
    ensures StagesOf(RecordStages(log, stages).events) == StagesOf(log.events) + After(stages, log.last)
  {
    if stages != [] {
      var before, stage := stages[..|stages| - 1], stages[|stages| - 1];
      OrderedReceipt(log, before);
      OrderedLast(log, before);
      assert before != [] ==> before[|before| - 1].sequence < stage.sequence;
      Appended(RecordStages(log, before).events, StageEvent(stage));
      Associative(StagesOf(log.events), After(before, log.last), [stage]);
    }
  }

  // A longer ordered receipt has, after the last number, exactly the stages still missing.
  lemma StillMissing(start: nat, earlier: seq<Stage>, later: seq<Stage>)
    requires Increasing(later) && earlier <= later
    ensures After(later, start) == After(earlier, start) + After(later, Last(start, earlier))
    ensures Last(Last(start, earlier), later) == Last(start, later)
  {
    var more, n := later[|earlier|..], Last(start, earlier);
    assert later == earlier + more;
    AfterJoin(earlier, more, start);
    AfterJoin(earlier, more, n);
    assert After(earlier, n) == [] by {
      NoneAfter(earlier, n);
    }
    assert After(later, n) == After(more, n);
    assert After(more, n) == After(more, start) by {
      if n != start {
        AllAfter(more, n);
        AllAfter(more, start);
      }
    }
  }

  /**
    With ordered receipts that only grow, the queue has received exactly the stages of the
    latest receipt after the number the client had seen.
   */
  lemma {:induction false} QueuedAreTheStages(start: nat, steps: seq<Step>)
    requires Growing(steps)
    ensures StagesOf(Run(start, steps).events) == After(Latest(steps), start)
    ensures Run(start, steps).last == Last(start, Latest(steps))
  {
    if steps != [] {
      var early := steps[..|steps| - 1];
      QueuedAreTheStages(start, early);
      var before, stages := Run(start, early), Latest(steps);
      assert Latest(early) <= stages;
      OrderedReceipt(before, stages);
      OrderedLast(before, stages);
      StillMissing(start, Latest(early), stages);
    }
  }

  // ---------- Cutting and resuming ----------

  lemma AfterParts(head: seq<Stage>, tail: seq<Stage>, n: nat)
    requires forall i :: 0 <= i < |head| ==> head[i].sequence <= n
    requires forall i :: 0 <= i < |tail| ==> tail[i].sequence > n
    ensures After(head + tail, n) == tail
  {
    AfterJoin(head, tail, n);
    NoneAfter(head, n);
    AllAfter(tail, n);
  }

  // How many leading stages are covered by a number.
  function Covered(stages: seq<Stage>, n: nat): (m: nat)
    ensures m <= |stages|
  {
    if stages == [] then 0
    else if stages[|stages| - 1].sequence <= n then |stages|
    else Covered(stages[..|stages| - 1], n)
  }

  lemma {:induction false} CoveredSplits(stages: seq<Stage>, n: nat)
    requires Increasing(stages)
    ensures forall i :: 0 <= i < Covered(stages, n) ==> stages[i].sequence <= n
    ensures forall i :: Covered(stages, n) <= i < |stages| ==> stages[i].sequence > n
  {
    if stages != [] && stages[|stages| - 1].sequence > n {
      CoveredSplits(stages[..|stages| - 1], n);
    }
  }

  // Of ordered stages, those after a number are a suffix.
  lemma AfterIsSuffix(stages: seq<Stage>, n: nat)
    requires Increasing(stages)
    ensures After(stages, n) == stages[Covered(stages, n)..]
  {
    var m := Covered(stages, n);
    CoveredSplits(stages, n);
    assert stages == stages[..m] + stages[m..];
    AfterParts(stages[..m], stages[m..], n);
  }

  // The stages after the k-th one delivered are the rest.
  lemma AfterDelivered(stages: seq<Stage>, start: nat, k: nat)
    requires Increasing(stages) && 0 < k <= |After(stages, start)|
    ensures After(stages, After(stages, start)[k - 1].sequence) == After(stages, start)[k..]
  {
    AfterIsSuffix(stages, start);
    var m := Covered(stages, start) + k;
    var id := stages[m - 1].sequence;
    assert stages == stages[..m] + stages[m..];
    AfterParts(stages[..m], stages[m..], id);
    assert stages[Covered(stages, start)..][k..] == stages[m..];
  }

  // A stream as the client meets it: receipts, and perhaps a failure that ends it.
  ghost predicate Life(steps: seq<Step>)
  {
    Growing(Receipts(steps))
  }

  function Receipts(steps: seq<Step>): seq<Step>
  {
    if steps != [] && steps[|steps| - 1].Failed? then steps[..|steps| - 1] else steps
  }

  // The stages of the last receipt that the stream saw.
  ghost function Seen(steps: seq<Step>): seq<Stage>
    requires Life(steps)
  {
    Latest(Receipts(steps))
  }

  // A failure takes nothing back.
  lemma LifeQueuesTheStages(start: nat, steps: seq<Step>)
    requires Life(steps)
    ensures StagesOf(Run(start, steps).events) == After(Seen(steps), start)
  {
    QueuedAreTheStages(start, Receipts(steps));
    if Receipts(steps) != steps {
      FailureQueuesNoStage(start, Receipts(steps), steps[|steps| - 1].code);
      assert steps == Receipts(steps) + [steps[|steps| - 1]];
    }
  }

  // One connection: what the stream did, and how many of its stages reached the client.
  datatype Visit = Visit(steps: seq<Step>, reached: nat)

  // The id the client resumes from after a visit.
  function Resume(start: nat, visit: Visit): nat
    requires visit.reached <= |StagesOf(Run(start, visit.steps).events)|
  {
    if visit.reached == 0 then start else StagesOf(Run(start, visit.steps).events)[visit.reached - 1].sequence
  }

  // Every visit resumes from the last id the client saw, and receipts only grow between visits.
  ghost predicate Chain(start: nat, earlier: seq<Stage>, visits: seq<Visit>)
    decreases |visits|
  {
    visits == [] ||
    var visit := visits[0];
    && Life(visit.steps) && visit.reached <= |StagesOf(Run(start, visit.steps).events)|
    && earlier <= Seen(visit.steps)
    && Chain(Resume(start, visit), Seen(visit.steps), visits[1..])
  }

  // All that reached the client, visit after visit.
  ghost function Reached(start: nat, earlier: seq<Stage>, visits: seq<Visit>): seq<Stage>
    requires Chain(start, earlier, visits)
    decreases |visits|
  {
    if visits == [] then []
    else StagesOf(Run(start, visits[0].steps).events)[..visits[0].reached]
         + Reached(Resume(start, visits[0]), Seen(visits[0].steps), visits[1..])
  }

  ghost function Final(start: nat, earlier: seq<Stage>, visits: seq<Visit>): seq<Stage>
    requires Chain(start, earlier, visits)
    decreases |visits|
  {
    if visits == [] then earlier else Final(Resume(start, visits[0]), Seen(visits[0].steps), visits[1..])
  }

  ghost function Resumed(start: nat, earlier: seq<Stage>, visits: seq<Visit>): nat
    requires Chain(start, earlier, visits)
    decreases |visits|
  {
    if visits == [] then start else Resumed(Resume(start, visits[0]), Seen(visits[0].steps), visits[1..])
  }

  /**
    Any chain of visits, each cut after any stage or ended by an error, and each resumed from
    the id of the last stage that reached the client: what reached it in all, followed by
    the stages still to come after its last id, is exactly the stages of the final receipt
    after its first id. Nothing is lost and nothing repeated.
   */
  lemma {:induction false} ResumeLosesNothing(start: nat, earlier: seq<Stage>, visits: seq<Visit>)
    requires Increasing(earlier) && Chain(start, earlier, visits)
    ensures var final := Final(start, earlier, visits);
            && earlier <= final && Increasing(final)
            && Reached(start, earlier, visits) + After(final, Resumed(start, earlier, visits)) == After(final, start)
    decreases |visits|
  {
    if visits == [] {
      assert [] + After(earlier, start) == After(earlier, start);
    } else {
      var visit := visits[0];
      var seen, id, final := Seen(visit.steps), Resume(start, visit), Final(start, earlier, visits);
      SeenIncreases(visit.steps);
      ResumeLosesNothing(id, seen, visits[1..]);
      VisitSplits(start, visit, final);
      var first := StagesOf(Run(start, visit.steps).events)[..visit.reached];
      Associative(first, Reached(id, seen, visits[1..]), After(final, Resumed(start, earlier, visits)));
    }
  }

  // One visit: what reached the client, and what is left after the id it resumes from.
  lemma VisitSplits(start: nat, visit: Visit, final: seq<Stage>)
    requires Life(visit.steps) && visit.reached <= |StagesOf(Run(start, visit.steps).events)|
    requires Increasing(final) && Seen(visit.steps) <= final
    ensures StagesOf(Run(start, visit.steps).events)[..visit.reached] + After(final, Resume(start, visit)) == After(final, start)
  {
    LifeQueuesTheStages(start, visit.steps);
    if visit.reached == 0 {
      assert [] + After(final, start) == After(final, start);
    } else {
      ResumedAfter(start, Seen(visit.steps), final, visit.reached);
    }
  }

  lemma SeenIncreases(steps: seq<Step>)
    requires Life(steps)
    ensures Increasing(Seen(steps))
  {
  }

  lemma ResumedAfter(start: nat, earlier: seq<Stage>, later: seq<Stage>, k: nat)
    requires Increasing(later) && earlier <= later && 0 < k <= |After(earlier, start)|
    ensures After(earlier, start)[..k] + After(later, After(earlier, start)[k - 1].sequence) == After(later, start)
  {
    var first, whole := After(earlier, start), After(later, start);
    StillMissing(start, earlier, later);
    assert first[k - 1] == whole[k - 1] && first[..k] == whole[..k];
    AfterDelivered(later, start, k);
    assert whole == whole[..k] + whole[k..];
  }

  // A failure ends a stream and adds no stage; what was queued before it stands.
  lemma FailureQueuesNoStage(start: nat, steps: seq<Step>, code: Code)
    ensures StagesOf(Run(start, steps + [Failed(code)]).events) == StagesOf(Run(start, steps).events)
    ensures Run(start, steps + [Failed(code)]).closing
  {
    assert (steps + [Failed(code)])[..|steps|] == steps;
    Appended(Run(start, steps).events, ErrorEvent(code));
  }

  // ---------- The stream ----------

  // What the clock, the receipt request and the delay report at one turn of the loop.
  datatype Input = Input(elapsed: bool, receipt: Option<Result<Receipt, ()>>, delayed: bool)

  datatype Poll = Ready(event: Event) | Finished | Pending

  // What one turn of the loop does: take a step, ask for a receipt, or wait.
  datatype Turn = Advance(step: Step) | Ask | Wait

  function TurnOf(asked: bool, input: Input): Turn
  {
    if input.elapsed then Advance(Failed(WindowElapsed))
    else if !asked then if input.delayed then Ask else Wait
    else
      match input.receipt
      case None => Wait
      case Some(Ok(receipt)) => Advance(Received(receipt))
      case Some(Err(_)) => Advance(Failed(ReceiptUnavailable))
  }

  // A request is out: it was asked for, and was not answered since.
  function Asking(inputs: seq<Input>): bool
  {
    inputs != [] &&
    var asked, input := Asking(inputs[..|inputs| - 1]), inputs[|inputs| - 1];
    match TurnOf(asked, input)
    case Ask => true
    case Wait => asked
    case Advance(_) => asked && input.elapsed
  }

  // The steps that the inputs of a stream lead to.
  function Yields(inputs: seq<Input>): seq<Step>
  {
    if inputs == [] then []
    else
      var early, turn := inputs[..|inputs| - 1], TurnOf(Asking(inputs[..|inputs| - 1]), inputs[|inputs| - 1]);
      if turn.Advance? then Yields(early) + [turn.step] else Yields(early)
  }

  lemma NextInput(inputs: seq<Input>, input: Input)
    ensures var turn := TurnOf(Asking(inputs), input);
            && Yields(inputs + [input]) == (if turn.Advance? then Yields(inputs) + [turn.step] else Yields(inputs))
            && (Asking(inputs + [input]) <==> turn == Ask || (Asking(inputs) && (turn == Wait || input.elapsed)))
  {
    assert (inputs + [input])[..|inputs|] == inputs;
  }

  // A window that is over and a request that failed end the stream, and every other turn
  // without an answer takes no step.
  lemma FailuresAreSteps(inputs: seq<Input>, input: Input)
    ensures input.elapsed ==> Yields(inputs + [input]) == Yields(inputs) + [Failed(WindowElapsed)]
    ensures !input.elapsed && Asking(inputs) && input.receipt == Some(Err(())) ==>
              Yields(inputs + [input]) == Yields(inputs) + [Failed(ReceiptUnavailable)]
    ensures !input.elapsed && (!Asking(inputs) || input.receipt.None?) ==> Yields(inputs + [input]) == Yields(inputs)
  {
    NextInput(inputs, input);
  }

  // Each receipt is asked for after some turns of waiting, and answered after some more.
  datatype Answer = Answer(receipt: Receipt, before: nat, after: nat)

  const IDLE := Input(false, None, false)

  function Idle(n: nat): seq<Input>
  {
    if n == 0 then [] else Idle(n - 1) + [IDLE]
  }

  function Answered(answers: seq<Answer>): seq<Input>
  {
    if answers == [] then [] else WithAnswer(Answered(answers[..|answers| - 1]), answers[|answers| - 1])
  }

  function WithAnswer(inputs: seq<Input>, answer: Answer): seq<Input>
  {
    inputs + Idle(answer.before) + [Input(false, None, true)] + Idle(answer.after) + [Input(false, Some(Ok(answer.receipt)), false)]
  }

  function ReceiptsOf(answers: seq<Answer>): seq<Step>
  {
    seq(|answers|, i requires 0 <= i < |answers| => Received(answers[i].receipt))
  }

  lemma {:induction false} IdleWaits(inputs: seq<Input>, n: nat)
    ensures Yields(inputs + Idle(n)) == Yields(inputs) && Asking(inputs + Idle(n)) == Asking(inputs)
  {
    if n == 0 {
      assert inputs + Idle(n) == inputs;
    } else {
      IdleWaits(inputs, n - 1);
      NextInput(inputs + Idle(n - 1), IDLE);
      Associative(inputs, Idle(n - 1), [IDLE]);
    }
  }

  /**
    No answer is lost: however long the stream waits before it asks and before it is
    answered, every answered receipt becomes a step, in order, and nothing else does.
   */
  lemma {:induction false} AnswersAreSteps(answers: seq<Answer>)
    ensures Yields(Answered(answers)) == ReceiptsOf(answers) && !Asking(Answered(answers))
  {
    if answers != [] {
      var early, last := answers[..|answers| - 1], answers[|answers| - 1];
      AnswersAreSteps(early);
      AnswerIsAStep(Answered(early), last);
      assert ReceiptsOf(answers) == ReceiptsOf(early) + [Received(last.receipt)];
    }
  }

  lemma AnswerIsAStep(inputs: seq<Input>, answer: Answer)
    requires !Asking(inputs)
    ensures Yields(WithAnswer(inputs, answer)) == Yields(inputs) + [Received(answer.receipt)] && !Asking(WithAnswer(inputs, answer))
  {
    IdleWaits(inputs, answer.before);
    NextInput(inputs + Idle(answer.before), Input(false, None, true));
    var asked := inputs + Idle(answer.before) + [Input(false, None, true)];
    IdleWaits(asked, answer.after);
    NextInput(asked + Idle(answer.after), Input(false, Some(Ok(answer.receipt)), false));
  }

  // No step was taken after one that closes the stream.
  ghost predicate OpenUntilNow(start: nat, steps: seq<Step>)
  {
    forall i :: 0 <= i < |steps| ==> !Run(start, steps[..i]).closing
  }

  class OperationEventStream {
    ghost const start: nat
    ghost var steps: seq<Step>
    ghost var delivered: seq<Event>
    // The inputs the loop has turned on.
    ghost var taken: seq<Input>
    var lastSequence: nat
    var queue: seq<Event>
    var closeAfterQueue: bool
    var pending: bool

    // Delivered and queued events are what the steps so far queued.
    ghost predicate Valid()
      reads this
    {
      && Log(lastSequence, delivered + queue, closeAfterQueue) == Run(start, steps) && OpenUntilNow(start, steps)
      && steps == Yields(taken) && pending == Asking(taken)
    }

    constructor (lastSequence: nat)
      ensures Valid() && start == lastSequence && delivered == [] && taken == []
    {
      start, steps, delivered, taken := lastSequence, [], [], [];
      this.lastSequence, queue, closeAfterQueue, pending := lastSequence, [], false, false;
    }

    // The log follows the steps, and nothing else changed.
    twostate predicate Took(step: Step)
      reads this
    {
      && Log(lastSequence, delivered + queue, closeAfterQueue) == Run(start, steps) && OpenUntilNow(start, steps)
      && steps == old(steps) + [step] && delivered == old(delivered) && pending == old(pending) && taken == old(taken)
    }

    lemma Grows(step: Step, log: Log)
      requires Log(lastSequence, delivered + queue, closeAfterQueue) == Run(start, steps) && OpenUntilNow(start, steps)
      requires !closeAfterQueue && log == Take(Run(start, steps), step)
      ensures Run(start, steps + [step]) == log && OpenUntilNow(start, steps + [step])
    {
      var all := steps + [step];
      assert all[..|steps|] == steps;
      assert forall i :: 0 <= i < |steps| ==> all[..i] == steps[..i];
    }

    method RecordReceipt(receipt: Receipt)
      requires Log(lastSequence, delivered + queue, closeAfterQueue) == Run(start, steps) && OpenUntilNow(start, steps)
      requires !closeAfterQueue
      modifies this
      ensures Took(Received(receipt))
    {
      ghost var log := Run(start, steps);
      Grows(Received(receipt), Take(log, Received(receipt)));
      var i := 0;
      assert receipt.stages[..0] == [];
      while i < |receipt.stages|
        invariant 0 <= i <= |receipt.stages| && delivered == old(delivered) && steps == old(steps) && pending == old(pending) && taken == old(taken)
        invariant Log(lastSequence, delivered + queue, closeAfterQueue) == RecordStages(log, receipt.stages[..i])
      {
        var stage := receipt.stages[i];
        assert receipt.stages[..i + 1][..i] == receipt.stages[..i];
        if stage.sequence > lastSequence {
          lastSequence := stage.sequence;
          PushStage(stage);
        }
        i := i + 1;
      }
      assert receipt.stages[..i] == receipt.stages;
      if receipt.terminal {
        closeAfterQueue := true;
      }
      steps := steps + [Received(receipt)];
    }

    method PushStage(stage: Stage)
      modifies this
      ensures lastSequence == old(lastSequence) && steps == old(steps) && delivered == old(delivered) && pending == old(pending) && taken == old(taken)
      ensures delivered + queue == old(delivered + queue) + [StageEvent(stage)] && closeAfterQueue == old(closeAfterQueue)
    {
      queue := queue + [StageEvent(stage)];
    }

    method PushError(code: Code)
      modifies this
      ensures lastSequence == old(lastSequence) && steps == old(steps) && delivered == old(delivered) && pending == old(pending) && taken == old(taken)
      ensures delivered + queue == old(delivered + queue) + [ErrorEvent(code)] && closeAfterQueue
    {
      queue := queue + [ErrorEvent(code)];
      closeAfterQueue := true;
    }

    method Fail(code: Code)
      requires Log(lastSequence, delivered + queue, closeAfterQueue) == Run(start, steps) && OpenUntilNow(start, steps)
      requires !closeAfterQueue
      modifies this
      ensures Took(Failed(code))
    {
      Grows(Failed(code), Take(Run(start, steps), Failed(code)));
      PushError(code);
      steps := steps + [Failed(code)];
    }

    // Nothing is queued and the stream is open, so the loop turns.
    ghost predicate Idling()
      reads this
    {
      queue == [] && !closeAfterQueue
    }

    // One turn of the loop on an open stream with an empty queue.
    method TakeTurn(input: Input) returns (waits: bool)
      requires Valid() && Idling()
      modifies this
      ensures Valid() && taken == old(taken) + [input] && delivered == old(delivered) && old(steps) <= steps
      ensures waits <==> TurnOf(old(pending), input) == Wait
      ensures waits ==> Idling()
    {
      NextInput(taken, input);
      taken := taken + [input];
      if input.elapsed {
        Fail(WindowElapsed);
        return false;
      }
      if pending {
        match input.receipt {
          case None => return true;
          case Some(Ok(receipt)) =>
            pending := false;
            RecordReceipt(receipt);
          case Some(Err(_)) =>
            pending := false;
            Fail(ReceiptUnavailable);
        }
        return false;
      }
      if input.delayed {
        pending := true;
        return false;
      }
      return true;
    }

    /**
      `poll_next`: the next queued event, the end once everything queued was delivered, or
      nothing yet. The loop turns once per input while nothing is queued and the stream is
      open, every turn doing what its input says, and it waits only when the inputs are used
      up or the last one had nothing to offer.
     */
    method PollNext(inputs: seq<Input>) returns (r: Poll, ghost more: seq<Input>)
      requires Valid()
      modifies this
      ensures Valid() && more <= inputs && taken == old(taken) + more && old(steps) <= steps
      ensures Turned(start, old(taken), more, old(delivered))
      ensures r.Ready? ==> delivered == old(delivered) + [r.event]
      ensures !r.Ready? ==> delivered == old(delivered)
      ensures r.Finished? ==> closeAfterQueue && delivered == Run(start, steps).events
      ensures !old(Idling()) ==> more == [] && !r.Pending?
      ensures r.Pending? ==> Idling() && (more == inputs || Waits(old(taken), more))
    {
      var i := 0;
      more := [];
      while queue == [] && !closeAfterQueue
        invariant Valid() && delivered == old(delivered) && old(steps) <= steps && i == |more| && more <= inputs && taken == old(taken) + more
        invariant !old(Idling()) ==> more == [] && !Idling()
        invariant Turned(start, old(taken), more, old(delivered)) && !Waits(old(taken), more)
        decreases |inputs| - i
      {
        if i == |inputs| {
          return Pending, more;
        }
        IsQuiet();
        TurnedNext(start, old(taken), more, inputs[i], delivered);
        ghost var next := more + [inputs[i]];
        OneMore(old(taken), more, inputs);
        var waits := TakeTurn(inputs[i]);
        more := next;
        i := i + 1;
        if waits {
          return Pending, more;
        }
      }
      r := Deliver();
    }

    lemma IsQuiet()
      requires Valid() && Idling()
      ensures Quiet(start, taken, delivered)
    {
      assert delivered + queue == delivered;
    }

    // The next queued event, or the end.
    method Deliver() returns (r: Poll)
      requires Valid() && !Idling()
      modifies this
      ensures Valid() && taken == old(taken) && steps == old(steps) && !r.Pending?
      ensures r.Ready? ==> delivered == old(delivered) + [r.event]
      ensures r.Finished? ==> delivered == old(delivered) && closeAfterQueue && delivered == Run(start, steps).events
    {
      if queue != [] {
        r := Ready(queue[0]);
        assert delivered + queue == delivered + [queue[0]] + queue[1..];
        queue, delivered := queue[1..], delivered + [queue[0]];
      } else {
        assert delivered + queue == delivered;
        r := Finished;
      }
    }
  }

  // The last of these inputs had nothing to offer: the request is unanswered, or the delay
  // still runs.
  ghost predicate Waits(taken: seq<Input>, more: seq<Input>)
  {
    more != [] && TurnOf(Asking(taken + more[..|more| - 1]), more[|more| - 1]) == Wait
  }

  // Every one of these turns began on an open stream with nothing queued, and only the last
  // may have waited.
  ghost predicate Turned(start: nat, taken: seq<Input>, more: seq<Input>, delivered: seq<Event>)
  {
    more == [] ||
    var early := more[..|more| - 1];
    Turned(start, taken, early, delivered) && Quiet(start, taken + early, delivered) && !Waits(taken, early)
  }

  lemma TurnedNext(start: nat, taken: seq<Input>, more: seq<Input>, input: Input, delivered: seq<Event>)
    requires Turned(start, taken, more, delivered) && Quiet(start, taken + more, delivered) && !Waits(taken, more)
    ensures Turned(start, taken, more + [input], delivered)
    ensures Waits(taken, more + [input]) <==> TurnOf(Asking(taken + more), input) == Wait
  {
    assert (more + [input])[..|more|] == more;
  }

  lemma OneMore<T>(taken: seq<T>, more: seq<T>, inputs: seq<T>)
    requires more < inputs
    ensures var next := more + [inputs[|more|]]; next <= inputs && taken + more + [inputs[|more|]] == taken + next
  {
  }

  // After these inputs the stream was open, and everything queued had been delivered.
  ghost predicate Quiet(start: nat, taken: seq<Input>, delivered: seq<Event>)
  {
    var log := Run(start, Yields(taken)); log.events == delivered && !log.closing
  }

  /**
    A stream that was answered a run of growing receipts, with any waiting in between, and has
    delivered all it queued, has delivered exactly the stages of the last receipt after the
    client's number; it is at its end exactly when that receipt is terminal.
   */
  lemma AnsweredStreamDelivers(stream: OperationEventStream, answers: seq<Answer>)
    requires stream.Valid() && stream.taken == Answered(answers) && stream.queue == [] && answers != []
    requires Growing(ReceiptsOf(answers))
    ensures var last := answers[|answers| - 1].receipt;
            StagesOf(stream.delivered) == After(last.stages, stream.start) && (stream.closeAfterQueue <==> last.terminal)
  {
    AnswersAreSteps(answers);
    QueuedAreTheStages(stream.start, stream.steps);
    assert stream.delivered + stream.queue == stream.delivered;
    var early := stream.steps[..|stream.steps| - 1];
    assert !Run(stream.start, early).closing;
    NeverCloses(Run(stream.start, early), answers[|answers| - 1].receipt.stages);
  }

  /**
    A finished stream that met no failure has delivered every stage of its final receipt
    after the number the client had seen, and that receipt is terminal.
   */
  lemma FinishedIsComplete(stream: OperationEventStream)
    requires stream.Valid() && stream.closeAfterQueue && stream.queue == [] && Growing(stream.steps)
    ensures StagesOf(stream.delivered) == After(Latest(stream.steps), stream.start)
    ensures stream.steps != [] && stream.steps[|stream.steps| - 1].receipt.terminal
  {
    QueuedAreTheStages(stream.start, stream.steps);
    assert stream.delivered + stream.queue == stream.delivered;
    var steps := stream.steps;
    assert steps != [];
    var early, receipt := steps[..|steps| - 1], steps[|steps| - 1].receipt;
    assert !Run(stream.start, early).closing;
    NeverCloses(Run(stream.start, early), receipt.stages);
  }

  lemma {:induction false} NeverCloses(log: Log, stages: seq<Stage>)
    ensures RecordStages(log, stages).closing == log.closing
  {
    if stages != [] {
      NeverCloses(log, stages[..|stages| - 1]);
    }
  }

  // What a stream has delivered is always a prefix of the stages after the client's number.
  lemma DeliveredIsPrefix(stream: OperationEventStream)
    requires stream.Valid() && Life(stream.steps)
    ensures StagesOf(stream.delivered) <= After(Seen(stream.steps), stream.start)
  {
    LifeQueuesTheStages(stream.start, stream.steps);
    StagesOfPrefix(stream.delivered, stream.queue);
  }

  // What a stream has delivered is a prefix of what it queued, so its numbers increase.
  lemma DeliveredIncreases(stream: OperationEventStream)
    requires stream.Valid()
    ensures stream.delivered <= Run(stream.start, stream.steps).events
    ensures Increasing(StagesOf(stream.delivered))
    ensures forall i :: 0 <= i < |StagesOf(stream.delivered)| ==> stream.start < StagesOf(stream.delivered)[i].sequence
  {
    SequencesIncrease(stream.start, stream.steps);
    StagesOfPrefix(stream.delivered, stream.queue);
  }

  lemma {:induction false} StagesOfPrefix(a: seq<Event>, b: seq<Event>)
    ensures StagesOf(a) <= StagesOf(a + b)
  {
    if b == [] {
      assert a + b == a;
    } else {
      StagesOfPrefix(a, b[..|b| - 1]);
      assert (a + b)[..|a + b| - 1] == a + b[..|b| - 1];
    }
  }
}
