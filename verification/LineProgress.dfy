/**
 Progress of the cancel-safe reader: every step that is not idle uses something up, no
 reachable state is stuck before the end, and the producer's steps read whole lines
 just as the capped line reader does.
 */
module LineProgress {
  import opened Wrappers
  import opened Lines
  import opened LineReader
  import opened LineProtocol

  // ----- the measure

  function MessageWeight(m: Message): nat {
    match m case Line(bytes) => 2 * |bytes| case Fault(_) => 1
  }

  function QueueWeight(queue: seq<Message>): nat {
    if queue == [] then 0 else MessageWeight(queue[0]) + QueueWeight(queue[1..])
  }

  function ProducerWeight(p: Producer): nat {
    match p
    case Reading(partial) => 7 * |partial| + 5
    case Sending(Line(bytes)) => 7 * |bytes| + 1
    case Sending(Fault(_)) => 3
    case Stopped => 0
  }

  /** A byte weighs less with every station it passes on its way to the caller. */
  function Measure(w: World): nat {
    8 * (|w.available| + |Flatten(w.chunks)|) + ProducerWeight(w.producer) + QueueWeight(w.queue) + |Unread(w)|
  }

  lemma {:induction false} QueueWeightSnoc(queue: seq<Message>, m: Message)
    ensures QueueWeight(queue + [m]) == QueueWeight(queue) + MessageWeight(m)
  {
    hide MessageWeight;
    if queue == [] {
      assert queue + [m] == [m] && [m][1..] == [];
    } else {
      assert (queue + [m])[0] == queue[0] && (queue + [m])[1..] == queue[1..] + [m];
      QueueWeightSnoc(queue[1..], m);
    }
  }

  /** A poll that finds nothing to do: no room, or nothing to serve. */
  predicate Idle(w: World, step: Step) {
    step.PollStep? && if w.pos < |w.buf| then step.room == 0 else w.queue == []
  }

  lemma AbsorbShrinks(w: World)
    requires w.producer.Reading? && w.available != []
    ensures Measure(Absorb(w)) < Measure(w)
    ensures |Absorb(w).available| < |w.available| && Absorb(w).chunks == w.chunks
  {
    hide Flatten, Position, QueueWeight;
  }

  lemma ReadShrinks(w: World)
    requires w.producer.Reading? && forall c | c in w.chunks :: c != []
    ensures Measure(Read(w)) < Measure(w)
  {
    hide Absorb, QueueWeight;
    if w.available != [] {
      AbsorbShrinks(w);
    } else if w.chunks != [] {
      assert w.chunks[0] in w.chunks;
      AbsorbShrinks(w.(available := w.chunks[0], chunks := w.chunks[1..]));
    }
  }

  lemma SendShrinks(w: World)
    requires WellFormed(w) && w.producer.Sending?
    ensures Measure(Send(w)) < Measure(w)
  {
    hide Flatten, QueueWeight;
    assert InFlight(w)[|w.queue|] == w.producer.message;
    QueueWeightSnoc(w.queue, w.producer.message);
  }

  lemma PollShrinks(w: World, room: nat)
    requires WellFormed(w)
    ensures if Idle(w, PollStep(room)) then PollWorld(w, room) == w else Measure(PollWorld(w, room)) < Measure(w)
  {
    hide Flatten, Poll, PollWorld, WellFormed;
    if w.pos < |w.buf| {
      ServeMoves(w, room);
      ServeServes(w, room);
      if room == 0 { NoRoom(w); }
    } else if w.queue == [] {
      IdleKeeps(w, room);
    } else {
      TakeShrinks(w, room);
    }
  }

  lemma NoRoom(w: World)
    requires w.pos < |w.buf|
    ensures PollWorld(w, 0) == w
  {
    assert w.delivered + [] == w.delivered;
  }

  lemma TakeShrinks(w: World, room: nat)
    requires WellFormed(w) && w.pos >= |w.buf| && w.queue != []
    ensures Measure(PollWorld(w, room)) < Measure(w)
  {
    hide Flatten, Poll, PollWorld;
    HeadInFlight(w);
    TakeMoves(w, room);
    TakeLeaves(w, room);
  }

  lemma TakeLeaves(w: World, room: nat)
    requires w.buf == [] && w.pos == 0 && w.queue != []
    ensures |Unread(PollWorld(w, room))| <= match w.queue[0] case Line(bytes) => |bytes| case Fault(_) => 0
  {
  }

  /** Every step that is not idle uses something up; an idle one changes nothing. */
  lemma StepShrinks(w: World, step: Step, w': World)
    requires WellFormed(w) && Next(w, step, w')
    ensures if Idle(w, step) then w' == w else Measure(w') < Measure(w)
  {
    hide WellFormed, Measure, Read, Send, PollWorld, Idle;
    match step
    case ReadStep => ReadShrinks(w); OnlyPollsIdle(w, step);
    case SendStep => SendShrinks(w); OnlyPollsIdle(w, step);
    case PollStep(room) => PollShrinks(w, room);
  }

  lemma OnlyPollsIdle(w: World, step: Step)
    requires !step.PollStep?
    ensures !Idle(w, step)
  {
  }

  // ----- no deadlock

  /** As long as the stream has not ended, some step that is not idle can be taken. */
  lemma NoDeadlock(w: World) returns (step: Step, w': World)
    requires WellFormed(w) && !Finished(w)
    ensures Next(w, step, w') && !Idle(w, step)
  {
    hide Read, Send, PollWorld;
    if w.producer.Reading? {
      step, w' := ReadStep, Read(w);
    } else if w.producer.Sending? && |w.queue| < CHANNEL_CAPACITY {
      step, w' := SendStep, Send(w);
    } else {
      step, w' := PollStep(1), PollWorld(w, 1);
    }
  }

  /** The steps that were not idle among the first `i`. */
  function Productive(run: seq<World>, steps: seq<Step>, i: nat): nat
    requires i <= |steps| <= |run|
  {
    if i == 0 then 0 else Productive(run, steps, i - 1) + if Idle(run[i - 1], steps[i - 1]) then 0 else 1
  }

  lemma InvIsWellFormed(w: World, source: seq<byte>)
    requires Inv(w, source)
    ensures WellFormed(w)
  {
  }

  lemma InitialMeasure(w: World)
    requires Initial(w)
    ensures Measure(w) == 8 * |SourceBytes(w)| + 5
  {
    hide Flatten;
  }

  /** No run takes more steps that are not idle than eight per byte of the source and five more. */
  lemma {:induction false} RunsAreBounded(run: seq<World>, steps: seq<Step>, i: nat)
    requires IsRun(run, steps) && i < |run|
    ensures Productive(run, steps, i) + Measure(run[i]) <= 8 * |SourceBytes(run[0])| + 5
  {
    hide Inv, WellFormed, Next, Idle;
    if i == 0 {
      InitialMeasure(run[0]);
    } else {
      RunsAreBounded(run, steps, i - 1);
      RunInv(run, steps, i - 1);
      InvIsWellFormed(run[i - 1], SourceBytes(run[0]));
      StepShrinks(run[i - 1], steps[i - 1], run[i]);
    }
  }

  lemma RunExtends(run: seq<World>, steps: seq<Step>, step: Step, next: World)
    requires IsRun(run, steps) && Next(run[|run| - 1], step, next)
    ensures IsRun(run + [next], steps + [step])
  {
    hide Next, Initial;
  }

  /**
   Every run can be carried on to its end, where the caller has got exactly what is
   deliverable, has been told of an error exactly if there was one, and is told the end
   by every further poll.
   */
  lemma {:induction false} EveryRunCanFinish(run: seq<World>, steps: seq<Step>) returns (run': seq<World>, steps': seq<Step>)
    requires IsRun(run, steps)
    ensures IsRun(run', steps') && run <= run' && steps <= steps' && Finished(run'[|run'| - 1])
    ensures var w, failure := run'[|run'| - 1], run[0].failure;
            && w.delivered == Flatten(Deliverable(Split(SourceBytes(run[0])), failure))
            && (w.errorSeen <==> Blocked(Undelivered(SourceBytes(run[0]), failure), failure))
            && forall room: nat :: Poll(ConsumerOf(w), room).outcome == Ready(0)
    decreases Measure(run[|run| - 1])
  {
    hide Inv, WellFormed, Next, Idle, Measure, Finished, Initial, Deliverable, Undelivered, Blocked, Split, Flatten, Poll;
    var n := |run| - 1;
    RunInv(run, steps, n);
    InvIsWellFormed(run[n], SourceBytes(run[0]));
    if Finished(run[n]) {
      run', steps' := run, steps;
      StreamIsExact(run, steps, n, 0);
      ErrorIsReportedIff(run, steps, n);
      forall room: nat ensures Poll(ConsumerOf(run[n]), room).outcome == Ready(0) { EndIsReported(run[n], room); }
    } else {
      var step, next := NoDeadlock(run[n]);
      StepShrinks(run[n], step, next);
      RunExtends(run, steps, step, next);
      run', steps' := EveryRunCanFinish(run + [next], steps + [step]);
      assert run <= run + [next] && steps <= steps + [step];
      assert (run + [next])[0] == run[0];
    }
  }

  // ----- the producer reads as the capped line reader does

  lemma ReadConsumes(w: World)
    requires w.producer.Reading? && forall c | c in w.chunks :: c != []
    ensures var next := Read(w);
            && (forall c | c in next.chunks :: c in w.chunks)
            && (next.producer.Reading? ==>
                  |next.available| + |Flatten(next.chunks)| < |w.available| + |Flatten(w.chunks)|)
  {
    hide Absorb;
    if w.available != [] {
      AbsorbShrinks(w);
    } else if w.chunks != [] {
      assert w.chunks[0] in w.chunks;
      AbsorbShrinks(w.(available := w.chunks[0], chunks := w.chunks[1..]));
    }
  }

  /** The producer's read steps until it has a message to send or stops. */
  function ReadToMessage(w: World): World
    requires w.producer.Reading? && forall c | c in w.chunks :: c != []
    decreases |w.available| + |Flatten(w.chunks)|
  {
    ReadConsumes(w);
    var next := Read(w);
    if next.producer.Reading? then ReadToMessage(next) else next
  }

  /** What the producer does with the outcome of reading one line. */
  function AfterLine(all: seq<byte>, failure: Option<int>): Producer {
    match LineOutcome(all, failure)
    case Err(error) => Sending(Fault(error))
    case Ok(n) => if n == 0 then Stopped else Sending(Line(FirstLine(all)))
  }

  ghost predicate Readable(w: World) {
    && w.producer.Reading? && (forall c | c in w.chunks :: c != [])
    && NEWLINE !in w.producer.partial && |w.producer.partial| <= MAX_LINE_SIZE
  }

  /** One read step either finishes as the capped reader would, or has read more of the same line. */
  ghost predicate ReadsOn(w: World, next: World) {
    if next.producer.Reading? then Readable(next) && Ahead(next) == Ahead(w) && next.failure == w.failure
    else
      && next.producer == AfterLine(Ahead(w), w.failure)
      && (LineOutcome(Ahead(w), w.failure).Ok? ==> Ahead(next) == Ahead(w)[|FirstLine(Ahead(w))|..])
  }

  /** The first line ahead, seen through the bytes at hand. */
  lemma FirstLineAhead(partial: seq<byte>, available: seq<byte>, later: seq<byte>)
    requires NEWLINE !in partial && available != []
    ensures var all := partial + (available + later);
            match Position(available)
            case Some(p) =>
              var line := partial + available[..p + 1];
              FirstLine(all) == line && NEWLINE in all && all[|line|..] == [] + (available[p + 1..] + later)
            case None =>
              && NEWLINE !in partial + available && |partial + available| <= |FirstLine(all)|
              && (partial + available) + ([] + later) == all
  {
    hide Position, FirstLine;
    var all := partial + (available + later);
    FirstLineAfter(partial, available + later);
    match Position(available)
    case Some(p) =>
      FirstLineWithin(available, later);
      FirstLineIs(available, p);
      assert all[|partial| + p] == NEWLINE;
    case None =>
      FirstLineAfter(available, later);
  }

  lemma AbsorbReadsOn(w: World)
    requires Readable(w) && w.available != []
    ensures ReadsOn(w, Absorb(w))
  {
    hide Flatten, Position, FirstLine, ReadsOn, Readable, Absorb;
    match Position(w.available)
    case Some(p) => AbsorbReadsLine(w, p);
    case None => AbsorbReadsAll(w);
  }

  lemma AbsorbReadsLine(w: World, p: nat)
    requires Readable(w) && Position(w.available) == Some(p)
    ensures ReadsOn(w, Absorb(w))
  {
    hide Flatten, Position, FirstLine;
    FirstLineAhead(w.producer.partial, w.available, Flatten(w.chunks));
  }

  lemma AbsorbReadsAll(w: World)
    requires Readable(w) && w.available != [] && Position(w.available).None?
    ensures ReadsOn(w, Absorb(w))
  {
    hide Flatten, Position, FirstLine;
    FirstLineAhead(w.producer.partial, w.available, Flatten(w.chunks));
    assert w.available[..|w.available|] == w.available && w.available[|w.available|..] == [];
  }

  lemma Unterminated(s: seq<byte>)
    requires NEWLINE !in s
    ensures FirstLine(s) == s
  {
  }

  lemma ReadReadsOn(w: World)
    requires Readable(w)
    ensures ReadsOn(w, Read(w))
  {
    hide Absorb, FirstLine, ReadsOn;
    if w.available != [] {
      AbsorbReadsOn(w);
    } else if w.chunks != [] {
      FilledReadsOn(w);
    } else {
      EndReadsOn(w);
    }
  }

  lemma FilledReadsOn(w: World)
    requires Readable(w) && w.available == [] && w.chunks != []
    ensures ReadsOn(w, Read(w))
  {
    hide Absorb, FirstLine;
    assert w.chunks[0] in w.chunks;
    var filled := w.(available := w.chunks[0], chunks := w.chunks[1..]);
    assert Ahead(filled) == Ahead(w) && forall c | c in filled.chunks :: c in w.chunks;
    AbsorbReadsOn(filled);
  }

  lemma EndReadsOn(w: World)
    requires Readable(w) && w.available == [] && w.chunks == []
    ensures ReadsOn(w, Read(w))
  {
    hide FirstLine;
    assert Ahead(w) == w.producer.partial;
    Unterminated(w.producer.partial);
    assert Ahead(w)[|Ahead(w)|..] == [];
  }

  /**
   However the bytes are chunked, the producer's steps come to the same line, or the same
   error, as reading it in one go, and leave exactly what follows the line.
   */
  lemma {:induction false} ReadStepsReadALine(w: World)
    requires Readable(w)
    ensures var w' := ReadToMessage(w);
            && w'.producer == AfterLine(Ahead(w), w.failure)
            && (LineOutcome(Ahead(w), w.failure).Ok? ==> Ahead(w') == Ahead(w)[|FirstLine(Ahead(w))|..])
    decreases |w.available| + |Flatten(w.chunks)|
  {
    hide Ahead, Flatten, FirstLine, Read, AfterLine, LineOutcome;
    ReadReadsOn(w);
    ReadConsumes(w);
    if Read(w).producer.Reading? { ReadStepsReadALine(Read(w)); }
  }
}
