/**
 The cancel-safe reader as a whole: a background producer that reads lines, a bounded
 channel, and a consumer that is polled with buffers of any size. The steps of
 both sides interleave freely.
 */
module LineProtocol {
  import opened Wrappers
  import opened Lines
  import opened LineReader

  /** A channel made for 64 messages holds one more for its single sender. */
  const CHANNEL_CAPACITY := 65

  datatype Message = Line(bytes: seq<byte>) | Fault(error: IoError)

  datatype Outcome = Pending | Ready(n: nat) | Failed(error: IoError)

  // ----- the consumer

  /** What a poll sees: the line being served, and the channel with its closed flag. */
  datatype Consumer = Consumer(buf: seq<byte>, pos: nat, queue: seq<Message>, closed: bool)

  datatype Polled = Polled(consumer: Consumer, outcome: Outcome, bytes: seq<byte>)

  function Min(a: nat, b: nat): nat { if a <= b then a else b }

  function Poll(c: Consumer, room: nat): (p: Polled)
    ensures p.outcome.Ready? ==> p.outcome.n == |p.bytes| <= room
    ensures !p.outcome.Ready? ==> p.bytes == []
  {
    if c.pos < |c.buf| then
      var n := Min(|c.buf| - c.pos, room);
      var served := c.buf[c.pos..c.pos + n];
      if c.pos + n >= |c.buf| then Polled(c.(buf := [], pos := 0), Ready(n), served)
      else Polled(c.(pos := c.pos + n), Ready(n), served)
    else if c.queue == [] then Polled(c, if c.closed then Ready(0) else Pending, [])
    else
      var rest := c.(queue := c.queue[1..]);
      match c.queue[0]
      case Fault(error) => Polled(rest, Failed(error), [])
      case Line(bytes) =>
        var n := Min(|bytes|, room);
        Polled(if n < |bytes| then rest.(buf := bytes, pos := n) else rest, Ready(n), bytes[..n])
  }

  class Receiver {
    var queue: seq<Message>
    var closed: bool

    constructor ()
      ensures queue == [] && !closed
    {
      queue, closed := [], false;
    }
  }

  class LineBufferedRead {
    var buf: seq<byte>
    var pos: nat
    const rx: Receiver

    constructor (rx: Receiver)
      ensures this.rx == rx && buf == [] && pos == 0
    {
      this.buf, this.pos, this.rx := [], 0, rx;
    }

    ghost function State(): Consumer
      reads this, rx
    {
      Consumer(buf, pos, rx.queue, rx.closed)
    }

    method PollRead(dst: array<byte>) returns (outcome: Outcome)
      modifies this, rx`queue, dst
      ensures var p := Poll(old(State()), dst.Length);
              && State() == p.consumer && outcome == p.outcome
              && dst[..|p.bytes|] == p.bytes && dst[|p.bytes|..] == old(dst[..])[|p.bytes|..]
    {
      if pos < |buf| {
        var n := Min(|buf| - pos, dst.Length);
        CopyInto(dst, buf[pos..pos + n]);
        pos := pos + n;
        if pos >= |buf| {
          buf := [];
          pos := 0;
        }
        return Ready(n);
      }
      if rx.queue == [] {
        return if rx.closed then Ready(0) else Pending;
      }
      var message := rx.queue[0];
      rx.queue := rx.queue[1..];
      match message
      case Line(line) =>
        var n := Min(|line|, dst.Length);
        CopyInto(dst, line[..n]);
        if n < |line| {
          buf := line;
          pos := n;
        }
        return Ready(n);
      case Fault(error) =>
        return Failed(error);
    }
  }

  method CopyInto(dst: array<byte>, src: seq<byte>)
    requires |src| <= dst.Length
    modifies dst
    ensures dst[..|src|] == src && dst[|src|..] == old(dst[..])[|src|..]
  {
    forall i | 0 <= i < |src| {
      dst[i] := src[i];
    }
  }

  // ----- the whole system

  datatype Producer = Reading(partial: seq<byte>) | Sending(message: Message) | Stopped

  /**
   The last four fields record the run so far: the bytes handed to the caller, the lines
   taken off the channel, whether the producer has given up, and whether the caller has
   been told so.
   */
  datatype World = World(
    available: seq<byte>, chunks: seq<seq<byte>>, failure: Option<int>,
    producer: Producer, queue: seq<Message>, buf: seq<byte>, pos: nat,
    delivered: seq<byte>, received: seq<seq<byte>>, faulted: bool, errorSeen: bool)

  ghost predicate Initial(w: World) {
    && w.available == [] && (forall c | c in w.chunks :: c != [])
    && w.producer == Reading([]) && w.queue == [] && w.buf == [] && w.pos == 0
    && w.delivered == [] && w.received == [] && !w.faulted && !w.errorSeen
  }

  function Give(w: World, error: IoError): World {
    w.(producer := Sending(Fault(error)), faulted := true)
  }

  /** One round of the capped line reader on the bytes at hand. */
  function Absorb(w: World): World
    requires w.producer.Reading? && w.available != []
  {
    var found := Position(w.available);
    var consumed := if found.Some? then found.value + 1 else |w.available|;
    var line := w.producer.partial + w.available[..consumed];
    var next := w.(available := w.available[consumed..]);
    if |line| > MAX_LINE_SIZE then Give(next, InvalidData)
    else next.(producer := if found.Some? then Sending(Line(line)) else Reading(line))
  }

  function Read(w: World): World
    requires w.producer.Reading?
    requires forall c | c in w.chunks :: c != []
  {
    if w.available != [] then Absorb(w)
    else if w.chunks != [] then
      assert w.chunks[0] in w.chunks;
      Absorb(w.(available := w.chunks[0], chunks := w.chunks[1..]))
    else if w.failure.Some? then Give(w, SourceFailed(w.failure.value))
    else if w.producer.partial == [] then w.(producer := Stopped)
    else w.(producer := Sending(Line(w.producer.partial)))
  }

  function Send(w: World): World
    requires w.producer.Sending?
  {
    w.(queue := w.queue + [w.producer.message],
       producer := if w.producer.message.Fault? then Stopped else Reading([]))
  }

  function ConsumerOf(w: World): Consumer {
    Consumer(w.buf, w.pos, w.queue, w.producer.Stopped?)
  }

  function PollWorld(w: World, room: nat): World {
    var p := Poll(ConsumerOf(w), room);
    var takes := w.pos >= |w.buf| && w.queue != [] && w.queue[0].Line?;
    w.(buf := p.consumer.buf, pos := p.consumer.pos, queue := p.consumer.queue,
       delivered := w.delivered + p.bytes,
       received := if takes then w.received + [w.queue[0].bytes] else w.received,
       errorSeen := w.errorSeen || p.outcome.Failed?)
  }

  datatype Step = ReadStep | SendStep | PollStep(room: nat)

  ghost predicate Next(w: World, step: Step, w': World) {
    match step
    case ReadStep => w.producer.Reading? && (forall c | c in w.chunks :: c != []) && w' == Read(w)
    case SendStep => w.producer.Sending? && |w.queue| < CHANNEL_CAPACITY && w' == Send(w)
    case PollStep(room) => w' == PollWorld(w, room)
  }

  ghost predicate IsRun(run: seq<World>, steps: seq<Step>) {
    && |run| == |steps| + 1 && Initial(run[0])
    && forall i :: 0 <= i < |steps| ==> Next(run[i], steps[i], run[i + 1])
  }

  /** The bytes the source yields over the whole run. */
  function SourceBytes(w: World): seq<byte> { Flatten(w.chunks) }

  // ----- the invariant

  function Unread(w: World): seq<byte> {
    if w.pos <= |w.buf| then w.buf[w.pos..] else []
  }

  /** The messages on their way: those in the channel and the one being sent. */
  function InFlight(w: World): seq<Message> {
    w.queue + if w.producer.Sending? then [w.producer.message] else []
  }

  function LinesOf(messages: seq<Message>): seq<seq<byte>> {
    if messages == [] then []
    else LinesOf(messages[..|messages| - 1])
         + match messages[|messages| - 1] case Line(bytes) => [bytes] case Fault(_) => []
  }

  /** What the producer has read of the current line, then what the source still holds. */
  function Partial(w: World): seq<byte> {
    if w.producer.Reading? then w.producer.partial else []
  }

  function Ahead(w: World): seq<byte> {
    Partial(w) + (w.available + Flatten(w.chunks))
  }

  ghost predicate WellFormed(w: World) {
    && (forall c | c in w.chunks :: c != [])
    && (w.pos < |w.buf| || (w.buf == [] && w.pos == 0))
    && |w.queue| <= CHANNEL_CAPACITY
    && NEWLINE !in Partial(w) && |Partial(w)| <= MAX_LINE_SIZE
    && (forall i :: 0 <= i < |InFlight(w)| && InFlight(w)[i].Line? ==> 0 < |InFlight(w)[i].bytes| <= MAX_LINE_SIZE)
    && (forall i :: 0 <= i < |InFlight(w)| && InFlight(w)[i].Fault? ==>
          i == |InFlight(w)| - 1 && w.faulted && !w.producer.Reading?)
    && (w.faulted && !w.errorSeen ==> InFlight(w) != [] && InFlight(w)[|InFlight(w)| - 1].Fault?)
    && (w.faulted ==> !w.producer.Reading? && (w.producer.Sending? ==> w.producer.message.Fault?))
    && (w.errorSeen ==> w.faulted && Finished(w))
    && (w.producer.Stopped? && !w.faulted ==> Ahead(w) == [] && w.failure.None?)
  }

  /** A line that reaches the caller: within the cap and, if the source fails in the end, terminated. */
  predicate Whole(line: seq<byte>, failure: Option<int>) {
    |line| <= MAX_LINE_SIZE && (failure.Some? ==> NEWLINE in line)
  }

  ghost predicate AllWhole(lines: seq<seq<byte>>, failure: Option<int>) {
    forall i :: 0 <= i < |lines| ==> Whole(lines[i], failure)
  }

  /** Reading on from here ends in a fault at once: the next line is not whole, or there is none and the source fails. */
  ghost predicate Blocked(rest: seq<seq<byte>>, failure: Option<int>) {
    if rest == [] then failure.Some? else !Whole(rest[0], failure)
  }

  /** The error such a rest ends in: a line over the cap comes before a failure of the source. */
  function Ending(rest: seq<seq<byte>>, failure: Option<int>): IoError {
    if rest != [] && |rest[0]| > MAX_LINE_SIZE then InvalidData
    else SourceFailed(match failure case Some(code) => code case None => 0)
  }

  ghost predicate FaultsAre(messages: seq<Message>, error: IoError) {
    forall i :: 0 <= i < |messages| && messages[i].Fault? ==> messages[i].error == error
  }

  /**
   The lines of the source, in order, are those received, those in flight and those
   ahead, and the first two kinds are whole; after a fault, those received and in flight
   are the first of them, the rest is blocked, and the fault in flight is the error it
   ends in.
   */
  ghost predicate Inv(w: World, source: seq<byte>) {
    && WellFormed(w)
    && w.delivered + Unread(w) == Flatten(w.received)
    && var known := w.received + LinesOf(InFlight(w));
       && AllWhole(known, w.failure)
       && if w.faulted then
            && known <= Split(source) && Blocked(Split(source)[|known|..], w.failure)
            && FaultsAre(InFlight(w), Ending(Split(source)[|known|..], w.failure))
          else known + Split(Ahead(w)) == Split(source)
  }

  // ----- every step keeps the invariant

  lemma InitialInv(w: World)
    requires Initial(w)
    ensures Inv(w, SourceBytes(w))
  {
    hide Split, Flatten;
    assert Ahead(w) == SourceBytes(w);
    assert InFlight(w) == [] && Unread(w) == [];
    NothingYet();
    assert [] + [] + Split(Ahead(w)) == Split(Ahead(w));
  }

  lemma NothingYet()
    ensures Flatten([]) == [] && LinesOf([]) == []
  {
  }

  lemma LinesOfSnoc(messages: seq<Message>, m: Message)
    ensures LinesOf(messages + [m]) == LinesOf(messages) + match m case Line(bytes) => [bytes] case Fault(_) => []
  {
    assert (messages + [m])[..|messages|] == messages;
  }

  lemma {:induction false} LinesOfCons(messages: seq<Message>)
    requires messages != []
    ensures LinesOf(messages)
         == (match messages[0] case Line(bytes) => [bytes] case Fault(_) => []) + LinesOf(messages[1..])
  {
    var n := |messages| - 1;
    if n > 0 {
      LinesOfCons(messages[..n]);
      assert messages[..n][1..] == messages[1..][..n - 1];
    } else {
      assert messages[..0] == [] && messages[1..] == [];
    }
  }

  /** Where the current line ends inside the available bytes, it is the first line ahead. */
  lemma AbsorbSplits(partial: seq<byte>, available: seq<byte>, later: seq<byte>)
    requires NEWLINE !in partial && available != []
    ensures var all := partial + (available + later);
            match Position(available)
            case Some(p) =>
              Split(all) == [partial + available[..p + 1]] + Split([] + (available[p + 1..] + later))
            case None =>
              NEWLINE !in partial + available && all == (partial + available) + ([] + later)
  {
    hide Position;
    var all := partial + (available + later);
    match Position(available)
    case Some(p) =>
      FirstLineAfter(partial, available + later);
      FirstLineWithin(available, later);
      FirstLineIs(available, p);
      var line := partial + available[..p + 1];
      assert all == line + (available[p + 1..] + later);
      SplitFirst(all, line, available[p + 1..] + later);
      assert [] + (available[p + 1..] + later) == available[p + 1..] + later;
    case None =>
  }

  lemma SplitFirst(all: seq<byte>, line: seq<byte>, rest: seq<byte>)
    requires all == line + rest && line != [] && FirstLine(all) == line
    ensures Split(all) == [line] + Split(rest)
  {
    assert all[|line|..] == rest;
  }

  /** Giving up leaves the lines already sent, which are the first of the source. */
  lemma GiveKeeps(w: World, next: World, error: IoError, source: seq<byte>)
    requires Inv(w, source) && w.producer.Reading?
    requires next == w.(available := next.available)
    requires Blocked(Split(Ahead(w)), w.failure) && error == Ending(Split(Ahead(w)), w.failure)
    ensures Inv(Give(next, error), source)
  {
    hide Split, LinesOf, Flatten;
    var w', fault := Give(next, error), Fault(error);
    assert InFlight(w) == w.queue && InFlight(w') == w.queue + [fault];
    LinesOfSnoc(w.queue, fault);
    assert LinesOf(w.queue) + [] == LinesOf(w.queue);
    var known := w.received + LinesOf(w.queue);
    assert (known + Split(Ahead(w)))[|known|..] == Split(Ahead(w));
  }

  /** A finished line moves from what lies ahead into flight. */
  lemma FinishKeeps(w: World, next: World, line: seq<byte>, source: seq<byte>)
    requires Inv(w, source) && w.producer.Reading? && line != [] && Whole(line, w.failure)
    requires next == w.(available := next.available, producer := Sending(Line(line)))
    requires Split(Ahead(w)) == [line] + Split(Ahead(next))
    ensures Inv(next, source)
  {
    hide Split, LinesOf, Flatten;
    assert InFlight(w) == w.queue && InFlight(next) == w.queue + [Line(line)];
    LinesOfSnoc(w.queue, Line(line));
    var known, ahead := LinesOf(w.queue), Split(Ahead(next));
    assert w.received + (known + [line]) == w.received + known + [line];
    assert w.received + (known + [line]) + ahead == w.received + known + ([line] + ahead);
  }

  lemma ContinueKeeps(w: World, next: World, line: seq<byte>, source: seq<byte>)
    requires Inv(w, source) && w.producer.Reading? && NEWLINE !in line && |line| <= MAX_LINE_SIZE
    requires next == w.(available := next.available, producer := Reading(line)) && Ahead(next) == Ahead(w)
    ensures Inv(next, source)
  {
    hide Split, LinesOf, Flatten;
    assert InFlight(w) == w.queue && InFlight(next) == w.queue;
  }

  lemma AbsorbLine(w: World, p: nat, source: seq<byte>)
    requires Inv(w, source) && w.producer.Reading? && Position(w.available) == Some(p)
    ensures Inv(Absorb(w), source)
  {
    hide Split, Flatten, Position, Inv, Ahead;
    PartialIsOpen(w, source);
    LineAhead(w, p);
    var next := w.(available := w.available[p + 1..]);
    var line := w.producer.partial + w.available[..p + 1];
    assert line[|line| - 1] == NEWLINE;
    if |line| > MAX_LINE_SIZE {
      GiveKeeps(w, next, InvalidData, source);
    } else {
      FinishKeeps(w, next.(producer := Sending(Line(line))), line, source);
    }
  }

  lemma PartialIsOpen(w: World, source: seq<byte>)
    requires Inv(w, source) && w.producer.Reading?
    ensures NEWLINE !in w.producer.partial
  {
  }

  lemma LineAhead(w: World, p: nat)
    requires w.producer.Reading? && NEWLINE !in w.producer.partial && Position(w.available) == Some(p)
    ensures var line := w.producer.partial + w.available[..p + 1];
            var finished := w.(available := w.available[p + 1..], producer := Sending(Line(line)));
            Split(Ahead(w)) == [line] + Split(Ahead(finished))
  {
    hide Split, Flatten, Position;
    AbsorbSplits(w.producer.partial, w.available, Flatten(w.chunks));
  }

  lemma AbsorbAll(w: World, source: seq<byte>)
    requires Inv(w, source) && w.producer.Reading? && w.available != [] && Position(w.available).None?
    ensures Inv(Absorb(w), source)
  {
    hide Split, Flatten, Position, Inv, Ahead;
    PartialIsOpen(w, source);
    AllAhead(w);
    var next := w.(available := []);
    var line := w.producer.partial + w.available;
    assert w.available[..|w.available|] == w.available && w.available[|w.available|..] == [];
    if |line| > MAX_LINE_SIZE {
      GiveKeeps(w, next, InvalidData, source);
    } else {
      ContinueKeeps(w, next.(producer := Reading(line)), line, source);
    }
  }

  /** Available bytes without a newline are the start of the first line ahead. */
  lemma AllAhead(w: World)
    requires w.producer.Reading? && NEWLINE !in w.producer.partial && w.available != [] && Position(w.available).None?
    ensures var line := w.producer.partial + w.available;
            && NEWLINE !in line && Ahead(w.(available := [], producer := Reading(line))) == Ahead(w)
            && Split(Ahead(w)) != [] && |line| <= |Split(Ahead(w))[0]|
  {
    hide Flatten, Position;
    var partial, later := w.producer.partial, Flatten(w.chunks);
    AbsorbSplits(partial, w.available, later);
    FirstLineAfter(partial, w.available + later);
    FirstLineAfter(w.available, later);
    assert Split(Ahead(w))[0] == FirstLine(Ahead(w));
  }

  lemma AbsorbKeeps(w: World, source: seq<byte>)
    requires Inv(w, source) && w.producer.Reading? && w.available != []
    ensures Inv(Absorb(w), source)
  {
    hide Inv, Absorb;
    match Position(w.available)
    case Some(p) => AbsorbLine(w, p, source);
    case None => AbsorbAll(w, source);
  }

  lemma ReadKeeps(w: World, source: seq<byte>)
    requires Inv(w, source) && w.producer.Reading?
    ensures Inv(Read(w), source)
  {
    hide Split, LinesOf, Absorb;
    if w.available != [] {
      AbsorbKeeps(w, source);
    } else if w.chunks != [] {
      FillKeeps(w, source);
      AbsorbKeeps(w.(available := w.chunks[0], chunks := w.chunks[1..]), source);
    } else {
      EndKeeps(w, source);
    }
  }

  lemma FillKeeps(w: World, source: seq<byte>)
    requires Inv(w, source) && w.producer.Reading? && w.available == [] && w.chunks != []
    ensures w.chunks[0] != [] && Inv(w.(available := w.chunks[0], chunks := w.chunks[1..]), source)
  {
    hide Split, LinesOf;
    assert w.chunks[0] in w.chunks;
    var filled := w.(available := w.chunks[0], chunks := w.chunks[1..]);
    assert forall c | c in filled.chunks :: c in w.chunks;
    assert Flatten(w.chunks) == filled.available + Flatten(filled.chunks);
    assert Ahead(filled) == Ahead(w) && InFlight(filled) == InFlight(w) && Unread(filled) == Unread(w);
  }

  lemma EndKeeps(w: World, source: seq<byte>)
    requires Inv(w, source) && w.producer.Reading? && w.available == [] && w.chunks == []
    ensures Inv(Read(w), source)
  {
    hide Split, LinesOf;
    var w', partial := Read(w), w.producer.partial;
    assert Ahead(w) == partial;
    if partial == [] { SplitNothing(); } else { SplitUnterminated(partial); }
    if w.failure.Some? {
      GiveKeeps(w, w, SourceFailed(w.failure.value), source);
    } else if partial != [] {
      SplitNothing();
      assert Ahead(w') == [];
      FinishKeeps(w, w', partial, source);
    } else {
      assert InFlight(w) == w.queue && InFlight(w') == w.queue && Ahead(w') == [];
    }
  }

  lemma SplitNothing()
    ensures Split([]) == []
  {
  }

  lemma SendKeeps(w: World, source: seq<byte>)
    requires Inv(w, source) && w.producer.Sending? && |w.queue| < CHANNEL_CAPACITY
    ensures Inv(Send(w), source)
  {
    hide Split, LinesOf, Flatten;
    var w' := Send(w);
    assert InFlight(w') == InFlight(w);
    assert Ahead(w') == Ahead(w);
    assert w.producer.message == InFlight(w)[|w.queue|];
  }

  lemma PollKeeps(w: World, source: seq<byte>, room: nat)
    requires Inv(w, source)
    ensures Inv(PollWorld(w, room), source)
  {
    if w.pos < |w.buf| {
      ServeKeeps(w, source, room);
    } else if w.queue == [] {
      IdleKeeps(w, room);
    } else {
      TakeKeeps(w, source, room);
    }
  }

  lemma IdleKeeps(w: World, room: nat)
    requires w.pos >= |w.buf| && w.queue == []
    ensures PollWorld(w, room) == w
  {
    assert w.delivered + [] == w.delivered;
  }

  lemma ServeKeeps(w: World, source: seq<byte>, room: nat)
    requires Inv(w, source) && w.pos < |w.buf|
    ensures Inv(PollWorld(w, room), source)
  {
    hide Split, LinesOf, Flatten, Poll;
    var w' := PollWorld(w, room);
    ServeMoves(w, room);
    assert InFlight(w') == InFlight(w) && Ahead(w') == Ahead(w);
  }

  /** Serving moves bytes from the line at hand to the caller and leaves all else alone. */
  lemma ServeMoves(w: World, room: nat)
    requires w.pos < |w.buf|
    ensures var w' := PollWorld(w, room);
            && SameElsewhere(w, w') && w'.queue == w.queue && w'.received == w.received && w'.errorSeen == w.errorSeen
            && (w'.pos < |w'.buf| || (w'.buf == [] && w'.pos == 0))
            && w'.delivered + Unread(w') == w.delivered + Unread(w)
  {
    hide Poll, PollWorld;
    var n := Min(|w.buf| - w.pos, room);
    PollServes(ConsumerOf(w), room);
    PollFields(w, room);
    Cut(w.delivered, w.buf, w.pos, n);
  }

  lemma ServeServes(w: World, room: nat)
    requires w.pos < |w.buf|
    ensures Served(w, room, PollWorld(w, room))
  {
    hide Poll, PollWorld;
    PollServes(ConsumerOf(w), room);
    PollFields(w, room);
    Cut([], w.buf, w.pos, Min(|w.buf| - w.pos, room));
  }

  lemma PollFields(w: World, room: nat)
    ensures var w', p := PollWorld(w, room), Poll(ConsumerOf(w), room);
            && SameElsewhere(w, w') && w'.buf == p.consumer.buf && w'.pos == p.consumer.pos && w'.queue == p.consumer.queue
            && w'.delivered == w.delivered + p.bytes && w'.errorSeen == (w.errorSeen || p.outcome.Failed?)
            && w'.received == (if w.pos >= |w.buf| && w.queue != [] && w.queue[0].Line?
                               then w.received + [w.queue[0].bytes] else w.received)
  {
    hide Poll;
  }

  lemma Cut(d: seq<byte>, buf: seq<byte>, pos: nat, n: nat)
    requires pos + n <= |buf|
    ensures buf[pos..][..n] == buf[pos..pos + n] && buf[pos..][n..] == buf[pos + n..]
    ensures d + buf[pos..pos + n] + buf[pos + n..] == d + buf[pos..]
  {
    assert buf[pos..] == buf[pos..pos + n] + buf[pos + n..];
  }

  lemma PollServes(c: Consumer, room: nat)
    requires c.pos < |c.buf|
    ensures var p, n := Poll(c, room), Min(|c.buf| - c.pos, room);
            && p.outcome == Ready(n) && p.bytes == c.buf[c.pos..c.pos + n]
            && p.consumer.queue == c.queue && p.consumer.pos <= |p.consumer.buf|
            && p.consumer.buf[p.consumer.pos..] == c.buf[c.pos + n..]
            && (p.consumer.pos < |p.consumer.buf| || (p.consumer.buf == [] && p.consumer.pos == 0))
  {
  }

  /** Nothing changed on the producer's side. */
  ghost predicate SameElsewhere(w: World, w': World) {
    && w'.available == w.available && w'.chunks == w.chunks && w'.failure == w.failure
    && w'.producer == w.producer && w'.faulted == w.faulted
  }

  /** The poll was ready and handed out as much of the current line as there was room for. */
  ghost predicate Served(w: World, room: nat, w': World) {
    var n := Min(|Unread(w)|, room);
    && Poll(ConsumerOf(w), room).outcome == Ready(n)
    && w'.delivered == w.delivered + Unread(w)[..n] && Unread(w') == Unread(w)[n..]
  }

  lemma TakeKeeps(w: World, source: seq<byte>, room: nat)
    requires Inv(w, source) && w.pos >= |w.buf| && w.queue != []
    ensures Inv(PollWorld(w, room), source)
  {
    hide Split, LinesOf, Flatten, PollWorld, Blocked, Ending, AllWhole, FaultsAre, InFlight, Ahead, Unread;
    var w' := PollWorld(w, room);
    TakeMoves(w, room);
    TakeWellFormed(w, w');
    TakeFlies(w, w');
    NothingUnread(w);
    TakeDelivers(w, w');
    assert w'.received + LinesOf(InFlight(w')) == w.received + LinesOf(InFlight(w));
  }

  /** Taking a message moves its line from flight to what is received. */
  lemma TakeFlies(w: World, w': World)
    requires w.queue != [] && SameElsewhere(w, w') && w'.queue == w.queue[1..]
    requires w'.received == match w.queue[0] case Line(bytes) => w.received + [bytes] case Fault(_) => w.received
    ensures w'.received + LinesOf(InFlight(w')) == w.received + LinesOf(InFlight(w)) && Ahead(w') == Ahead(w)
    ensures forall error :: FaultsAre(InFlight(w), error) ==> FaultsAre(InFlight(w'), error)
  {
    hide LinesOf, Flatten;
    LinesOfCons(InFlight(w));
    assert InFlight(w)[0] == w.queue[0] && InFlight(w)[1..] == InFlight(w');
    var later := LinesOf(InFlight(w'));
    match w.queue[0]
    case Line(bytes) => assert w.received + ([bytes] + later) == w.received + [bytes] + later;
    case Fault(_) => assert w.received + ([] + later) == w.received + later;
  }

  /** What is delivered and unread is what was received, before and after. */
  lemma TakeDelivers(w: World, w': World)
    requires w.queue != [] && w.delivered + Unread(w) == Flatten(w.received) && Unread(w) == []
    requires match w.queue[0]
             case Line(bytes) => w'.received == w.received + [bytes] && w'.delivered + Unread(w') == w.delivered + bytes
             case Fault(_) => w'.received == w.received && w'.delivered == w.delivered && Unread(w') == []
    ensures w'.delivered + Unread(w') == Flatten(w'.received)
  {
    hide Flatten, Unread;
    match w.queue[0]
    case Line(bytes) =>
      FlattenConcat(w.received, [bytes]);
      FlattenOne(bytes);
      assert w.delivered + [] == w.delivered;
    case Fault(_) =>
  }

  lemma TakeWellFormed(w: World, w': World)
    requires WellFormed(w) && w.queue != []
    requires SameElsewhere(w, w') && w'.queue == w.queue[1..]
    requires w'.pos < |w'.buf| || (w'.buf == [] && w'.pos == 0)
    requires w'.errorSeen == (w.errorSeen || w.queue[0].Fault?) && (w.queue[0].Fault? ==> Unread(w') == [])
    ensures WellFormed(w')
  {
    assert Ahead(w') == Ahead(w) && Partial(w') == Partial(w);
    assert InFlight(w)[0] == w.queue[0] && InFlight(w)[1..] == InFlight(w');
    assert forall i :: 0 <= i < |InFlight(w')| ==> InFlight(w')[i] == InFlight(w)[i + 1];
  }

  /** Taking a message hands out its start and keeps the rest for later polls. */
  lemma TakeMoves(w: World, room: nat)
    requires w.buf == [] && w.pos == 0 && w.queue != []
    ensures var w' := PollWorld(w, room);
            && SameElsewhere(w, w') && w'.queue == w.queue[1..]
            && (w'.pos < |w'.buf| || (w'.buf == [] && w'.pos == 0))
            && match w.queue[0]
               case Line(bytes) =>
                 w'.received == w.received + [bytes] && w'.delivered + Unread(w') == w.delivered + bytes && w'.errorSeen == w.errorSeen
               case Fault(_) =>
                 w'.received == w.received && w'.delivered == w.delivered && Unread(w') == [] && w'.errorSeen
  {
    hide Poll, PollWorld;
    PollTakes(ConsumerOf(w), room);
    PollFields(w, room);
    if w.queue[0].Line? { Cut(w.delivered, w.queue[0].bytes, 0, Min(|w.queue[0].bytes|, room)); }
  }

  lemma PollTakes(c: Consumer, room: nat)
    requires c.pos >= |c.buf| && c.queue != []
    requires c.buf == [] && c.pos == 0
    ensures var p, c' := Poll(c, room), Poll(c, room).consumer;
            && c'.queue == c.queue[1..] && c'.pos <= |c'.buf|
            && (c'.pos < |c'.buf| || (c'.buf == [] && c'.pos == 0))
            && match c.queue[0]
               case Line(bytes) =>
                 var n := Min(|bytes|, room);
                 p.outcome == Ready(n) && p.bytes == bytes[0..0 + n] && c'.buf[c'.pos..] == bytes[0 + n..]
               case Fault(error) => p.outcome == Failed(error) && p.bytes == [] && c'.buf == []
  {
  }

  lemma NextKeeps(w: World, step: Step, w': World, source: seq<byte>)
    requires Inv(w, source) && Next(w, step, w')
    ensures Inv(w', source)
  {
    hide Inv, Read, Send, PollWorld;
    match step
    case ReadStep => ReadKeeps(w, source);
    case SendStep => SendKeeps(w, source);
    case PollStep(room) => PollKeeps(w, source, room);
  }

  lemma {:induction false} RunInv(run: seq<World>, steps: seq<Step>, i: nat)
    requires IsRun(run, steps) && i < |run|
    ensures Inv(run[i], SourceBytes(run[0]))
  {
    hide Inv, Initial, Next;
    if i == 0 {
      InitialInv(run[0]);
    } else {
      RunInv(run, steps, i - 1);
      NextKeeps(run[i - 1], steps[i - 1], run[i], SourceBytes(run[0]));
    }
  }

  // ----- what every run guarantees

  /** The bytes the system holds between the caller and the source, in order. */
  function Held(w: World): seq<byte> {
    Unread(w) + Flatten(LinesOf(InFlight(w))) + Partial(w)
  }

  lemma KnownBytes(w: World)
    requires w.delivered + Unread(w) == Flatten(w.received)
    ensures Flatten(w.received + LinesOf(InFlight(w))) == w.delivered + Unread(w) + Flatten(LinesOf(InFlight(w)))
  {
    FlattenConcat(w.received, LinesOf(InFlight(w)));
  }

  /**
   No byte is lost, repeated or moved, whatever the interleaving: what was delivered
   followed by what is held is always a prefix of the source, and until the producer
   gives up the rest is still in the source.
   */
  lemma BytesAreConserved(run: seq<World>, steps: seq<Step>, i: nat)
    requires IsRun(run, steps) && i < |run|
    ensures var w, source := run[i], SourceBytes(run[0]);
            && w.delivered + Held(w) <= source
            && (!w.faulted ==> w.delivered + Held(w) + (w.available + Flatten(w.chunks)) == source)
  {
    hide Split, LinesOf, WellFormed, Unread, InFlight, Flatten, Partial, IsRun;
    var w, source := run[i], SourceBytes(run[0]);
    RunInv(run, steps, i);
    KnownBytes(w);
    var known := w.received + LinesOf(InFlight(w));
    var rest := if w.faulted then Split(source)[|known|..] else Split(Ahead(w));
    assert Split(source) == known + rest;
    FlattenSplit(source);
    FlattenConcat(known, rest);
    FlattenSplit(Ahead(w));
    if w.faulted { FaultedHoldsNoPartial(w); }
    Regroup(w.delivered, Unread(w), Flatten(LinesOf(InFlight(w))), Partial(w), w.available + Flatten(w.chunks));
    HeldIsPrefix(w.delivered, Unread(w), Flatten(LinesOf(InFlight(w))), Flatten(rest));
  }

  lemma Regroup(d: seq<byte>, u: seq<byte>, f: seq<byte>, p: seq<byte>, r: seq<byte>)
    ensures d + (u + f + p) + r == d + u + f + (p + r)
    ensures d + (u + f + p) <= d + u + f + (p + r)
  {
  }

  lemma HeldIsPrefix(d: seq<byte>, u: seq<byte>, f: seq<byte>, r: seq<byte>)
    ensures d + (u + f + []) <= d + u + f + r
  {
    assert d + (u + f + []) == d + u + f;
  }

  lemma FaultedHoldsNoPartial(w: World)
    requires WellFormed(w) && w.faulted
    ensures Partial(w) == []
  {
  }

  /** What a poll answers, by what there is to serve. */
  lemma PollAnswers(w: World, room: nat)
    requires WellFormed(w)
    ensures var outcome := Poll(ConsumerOf(w), room).outcome;
            if Unread(w) != [] then outcome == Ready(Min(|Unread(w)|, room))
            else if w.queue == [] then outcome == if w.producer.Stopped? then Ready(0) else Pending
            else outcome == match w.queue[0] case Line(bytes) => Ready(Min(|bytes|, room)) case Fault(error) => Failed(error)
  {
  }

  /** The end is reported to every poll, whatever its room. */
  lemma EndIsReported(w: World, room: nat)
    requires Finished(w)
    ensures Poll(ConsumerOf(w), room).outcome == Ready(0)
  {
  }

  /** A poll is pending only between lines: the bytes delivered so far are whole lines of the source. */
  lemma PendingOnlyBetweenLines(run: seq<World>, steps: seq<Step>, i: nat, room: nat)
    requires IsRun(run, steps) && i < |run| && Poll(ConsumerOf(run[i]), room).outcome == Pending
    ensures var w := run[i]; w.received <= Split(SourceBytes(run[0])) && w.delivered == Flatten(w.received)
  {
    hide Split, LinesOf, Flatten;
    var w := run[i];
    RunInv(run, steps, i);
    assert Unread(w) == [];
  }

  lemma ServeStep(w: World, step: Step, w': World)
    requires w.pos < |w.buf| && Next(w, step, w')
    ensures if step.PollStep? then Served(w, step.room, w') else Unread(w') == Unread(w) && w'.delivered == w.delivered
  {
    hide Served, Poll;
    if step.PollStep? { ServeServes(w, step.room); }
  }

  lemma DeliveredGrows(w: World, step: Step, w': World)
    requires Next(w, step, w')
    ensures w.delivered <= w'.delivered
  {
    hide Poll, Position;
  }

  /** Parts of a line handed out one after the other. */
  lemma NextPart(d: seq<byte>, line: seq<byte>, k: nat, n: nat)
    requires k + n <= |line|
    ensures d + line[..k] + line[k..][..n] == d + line[..k + n] && line[k..][n..] == line[k + n..]
    ensures k + n == |line| ==> d + line <= d + line[..k] + line[k..][..n]
  {
    assert line[..k] + line[k..][..n] == line[..k + n];
  }

  /**
   Once part of a line has been handed out, the rest of it is served without a break:
   as long as it is not finished, what was delivered since is the next part of it, what
   is left of it is still there, and every poll is ready with as much as there is room for.
   */
  lemma {:induction false} StartedLineIsServed(run: seq<World>, steps: seq<Step>, i: nat, j: nat)
    requires IsRun(run, steps) && i <= j < |run|
    requires |run[j].delivered| < |run[i].delivered| + |Unread(run[i])|
    ensures run[i].delivered <= run[j].delivered
    ensures var n := |run[j].delivered| - |run[i].delivered|;
            && run[j].delivered == run[i].delivered + Unread(run[i])[..n] && Unread(run[j]) == Unread(run[i])[n..]
            && forall room: nat :: Poll(ConsumerOf(run[j]), room).outcome == Ready(Min(|Unread(run[j])|, room))
    decreases j
  {
    hide Next, Initial, Poll, Unread;
    var d, rest := run[i].delivered, Unread(run[i]);
    if j == i {
      assert rest[..0] == [] && rest[0..] == rest && d + [] == d;
    } else {
      DeliveredGrows(run[j - 1], steps[j - 1], run[j]);
      StartedLineIsServed(run, steps, i, j - 1);
      UnreadMeans(run[j - 1]);
      ServeStep(run[j - 1], steps[j - 1], run[j]);
      NextPart(d, rest, |run[j - 1].delivered| - |d|, |run[j].delivered| - |run[j - 1].delivered|);
    }
    UnreadMeans(run[j]);
    forall room: nat ensures Poll(ConsumerOf(run[j]), room).outcome == Ready(Min(|Unread(run[j])|, room)) {
      PollServes(ConsumerOf(run[j]), room);
    }
  }

  /** The polls with room among the first `j` steps, from step `i` on. */
  function Polls(steps: seq<Step>, i: nat, j: nat): nat
    requires i <= j <= |steps|
    decreases j
  {
    if j == i then 0
    else Polls(steps, i, j - 1) + if steps[j - 1].PollStep? && steps[j - 1].room > 0 then 1 else 0
  }

  /** Every poll with room brings a started line closer to its end, so as many polls as it has bytes left finish it. */
  lemma {:induction false} StartedLineIsFinished(run: seq<World>, steps: seq<Step>, i: nat, j: nat)
    requires IsRun(run, steps) && i <= j < |run|
    ensures run[i].delivered + Unread(run[i]) <= run[j].delivered
         || |run[i].delivered| + Polls(steps, i, j) <= |run[j].delivered| < |run[i].delivered| + |Unread(run[i])|
    ensures Polls(steps, i, j) >= |Unread(run[i])| ==> run[i].delivered + Unread(run[i]) <= run[j].delivered
    decreases j
  {
    hide Next, Initial, Poll, Unread;
    var rest := Unread(run[i]);
    if j > i {
      StartedLineIsFinished(run, steps, i, j - 1);
      DeliveredGrows(run[j - 1], steps[j - 1], run[j]);
      if |run[j - 1].delivered| < |run[i].delivered| + |rest| {
        StartedLineIsServed(run, steps, i, j - 1);
        UnreadMeans(run[j - 1]);
        ServeStep(run[j - 1], steps[j - 1], run[j]);
        NextPart(run[i].delivered, rest, |run[j - 1].delivered| - |run[i].delivered|, |run[j].delivered| - |run[j - 1].delivered|);
      }
    }
  }

  lemma UnreadMeans(w: World)
    ensures Unread(w) != [] ==> w.pos < |w.buf| && |Unread(w)| == |w.buf| - w.pos
  {
  }

  /** An end of stream reported to a caller with room, before any error, means the whole source was delivered. */
  lemma EndOfStreamIsComplete(run: seq<World>, steps: seq<Step>, i: nat, room: nat)
    requires IsRun(run, steps) && i < |run| && room > 0 && !run[i].errorSeen
    requires Poll(ConsumerOf(run[i]), room).outcome == Ready(0)
    ensures run[i].delivered == SourceBytes(run[0])
  {
    hide Split, LinesOf, Flatten;
    var w, source := run[i], SourceBytes(run[0]);
    RunInv(run, steps, i);
    assert w.pos >= |w.buf| && w.queue == [] && w.producer.Stopped? by { EndMeansStopped(w, room); }
    assert InFlight(w) == [] && Ahead(w) == [] && Unread(w) == [];
    SplitNothing();
    NothingYet();
    assert w.received + [] + [] == w.received;
    FlattenSplit(source);
  }

  lemma EndMeansStopped(w: World, room: nat)
    requires WellFormed(w) && room > 0 && Poll(ConsumerOf(w), room).outcome == Ready(0)
    ensures w.pos >= |w.buf| && w.queue == [] && w.producer.Stopped?
  {
    HeadInFlight(w);
  }

  lemma HeadInFlight(w: World)
    ensures w.queue != [] ==> InFlight(w) != [] && InFlight(w)[0] == w.queue[0]
  {
  }

  /** The lines a caller gets in the end: those before the first that is not whole. */
  function Deliverable(lines: seq<seq<byte>>, failure: Option<int>): seq<seq<byte>> {
    if lines == [] || !Whole(lines[0], failure) then [] else [lines[0]] + Deliverable(lines[1..], failure)
  }

  lemma {:induction false} DeliverableAfter(known: seq<seq<byte>>, rest: seq<seq<byte>>, failure: Option<int>)
    requires AllWhole(known, failure)
    ensures Deliverable(known + rest, failure) == known + Deliverable(rest, failure)
  {
    hide Whole;
    if known == [] {
      assert known + rest == rest;
    } else {
      assert (known + rest)[0] == known[0] && (known + rest)[1..] == known[1..] + rest;
      DeliverableAfter(known[1..], rest, failure);
    }
  }

  /** At every point of every run, what is received, in flight and still to come is what the caller is to get. */
  lemma LinesOnTrack(run: seq<World>, steps: seq<Step>, i: nat)
    requires IsRun(run, steps) && i < |run|
    ensures var w, failure := run[i], run[0].failure;
            w.received + LinesOf(InFlight(w)) + (if w.faulted then [] else Deliverable(Split(Ahead(w)), failure)) ==
            Deliverable(Split(SourceBytes(run[0])), failure)
  {
    hide Split, LinesOf, Flatten, WellFormed, IsRun, AllWhole, Whole;
    var w, source := run[i], SourceBytes(run[0]);
    RunInv(run, steps, i);
    FailureIsFixed(run, steps, i);
    var known := w.received + LinesOf(InFlight(w));
    var rest := if w.faulted then Split(source)[|known|..] else Split(Ahead(w));
    assert Split(source) == known + rest;
    DeliverableAfter(known, rest, w.failure);
  }

  /** Everything the source yielded has been taken off the channel and served. */
  ghost predicate Finished(w: World) {
    w.producer.Stopped? && w.queue == [] && w.pos >= |w.buf|
  }

  /**
   Whatever the interleaving, the chunks and the buffers: when the stream ends, with an
   error or without, the caller has got exactly the lines before the first that is over
   the cap or cut short by a failure of the source.
   */
  lemma StreamIsExact(run: seq<World>, steps: seq<Step>, i: nat, room: nat)
    requires IsRun(run, steps) && i < |run|
    requires var outcome := Poll(ConsumerOf(run[i]), room).outcome;
             Finished(run[i]) || outcome.Failed? || (outcome == Ready(0) && room > 0)
    ensures var lines := Deliverable(Split(SourceBytes(run[0])), run[0].failure);
            run[i].received == lines && run[i].delivered == Flatten(lines)
  {
    hide Split, LinesOf, Flatten, IsRun, Poll;
    var w := run[i];
    RunInv(run, steps, i);
    FailureIsFixed(run, steps, i);
    LinesOnTrack(run, steps, i);
    if Poll(ConsumerOf(w), room).outcome == Ready(0) && room > 0 { EndMeansStopped(w, room); }
    EndLeavesNothing(w, room);
    hide WellFormed, Ahead;
    assert w.received + [] + [] == w.received;
  }

  /** What is left of the source behind the lines the caller gets. */
  function Undelivered(source: seq<byte>, failure: Option<int>): seq<seq<byte>> {
    DeliverableIsPrefix(Split(source), failure);
    Split(source)[|Deliverable(Split(source), failure)|..]
  }

  lemma {:induction false} DeliverableIsPrefix(lines: seq<seq<byte>>, failure: Option<int>)
    ensures Deliverable(lines, failure) <= lines
  {
    if lines != [] { DeliverableIsPrefix(lines[1..], failure); }
  }

  /**
   The error the caller sees is the right one: a line over the cap if that is what comes
   next, the failure of the source otherwise.
   */
  lemma ErrorIsRight(run: seq<World>, steps: seq<Step>, i: nat, room: nat)
    requires IsRun(run, steps) && i < |run| && Poll(ConsumerOf(run[i]), room).outcome.Failed?
    ensures var failure := run[0].failure;
            Poll(ConsumerOf(run[i]), room).outcome == Failed(Ending(Undelivered(SourceBytes(run[0]), failure), failure))
  {
    hide Split, LinesOf, Flatten, IsRun, Poll, Ending, Deliverable;
    var w, source := run[i], SourceBytes(run[0]);
    RunInv(run, steps, i);
    FailureIsFixed(run, steps, i);
    StreamIsExact(run, steps, i, room);
    FailedMeans(w, room);
    NothingUnread(w);
    PollAnswers(w, room);
    FaultIsLast(w);
    HeadInFlight(w);
    assert w.received + [] == w.received;
  }

  /** When the stream has ended, an error was reported exactly if the rest of the source is blocked. */
  lemma ErrorIsReportedIff(run: seq<World>, steps: seq<Step>, i: nat)
    requires IsRun(run, steps) && i < |run| && Finished(run[i])
    ensures run[i].errorSeen <==> Blocked(Undelivered(SourceBytes(run[0]), run[0].failure), run[0].failure)
  {
    hide Split, LinesOf, Flatten, IsRun, Deliverable;
    var w, source := run[i], SourceBytes(run[0]);
    RunInv(run, steps, i);
    FailureIsFixed(run, steps, i);
    StreamIsExact(run, steps, i, 0);
    EndLeavesNothing(w, 0);
    assert InFlight(w) == [];
    assert w.received + [] == w.received;
    if !w.faulted {
      SplitNothing();
      assert w.received + [] == Split(source);
    }
  }

  lemma FailedMeans(w: World, room: nat)
    requires Poll(ConsumerOf(w), room).outcome.Failed?
    ensures w.pos >= |w.buf| && w.queue != [] && w.queue[0].Fault?
  {
  }

  lemma NothingUnread(w: World)
    requires WellFormed(w) && w.pos >= |w.buf|
    ensures Unread(w) == []
  {
  }

  /** A fault is the last message: nothing else is in flight when it is taken. */
  lemma FaultIsLast(w: World)
    requires WellFormed(w) && w.queue != [] && w.queue[0].Fault?
    ensures LinesOf(InFlight(w)) == [] && w.faulted
  {
    hide LinesOf;
    HeadInFlight(w);
    var messages := InFlight(w);
    assert messages == [] + [messages[0]];
    LinesOfSnoc([], messages[0]);
    NothingYet();
  }

  lemma EndLeavesNothing(w: World, room: nat)
    requires WellFormed(w) && (Finished(w) || Poll(ConsumerOf(w), room).outcome.Failed?)
    ensures Unread(w) == [] && LinesOf(InFlight(w)) == []
    ensures !w.faulted ==> Deliverable(Split(Ahead(w)), w.failure) == []
  {
    hide Flatten, LinesOf, Poll;
    if Finished(w) {
      SplitNothing();
      NothingYet();
      assert InFlight(w) == [];
    } else {
      FailedMeans(w, room);
      FaultIsLast(w);
    }
    NothingUnread(w);
  }

  lemma {:induction false} FailureIsFixed(run: seq<World>, steps: seq<Step>, i: nat)
    requires IsRun(run, steps) && i < |run|
    ensures run[i].failure == run[0].failure
  {
    if i > 0 {
      FailureIsFixed(run, steps, i - 1);
      assert Next(run[i - 1], steps[i - 1], run[i]);
    }
  }

  /** The producer gives up only for cause: never on a source that does not fail and whose lines are within the cap. */
  lemma HealthySourceNeverFaults(run: seq<World>, steps: seq<Step>, i: nat)
    requires IsRun(run, steps) && i < |run| && run[0].failure.None?
    requires forall line | line in Split(SourceBytes(run[0])) :: |line| <= 64 * 1024 * 1024
    ensures !run[i].faulted
  {
    hide Split, Flatten, LinesOf, WellFormed, Initial, Next;
    RunInv(run, steps, i);
    FailureIsFixed(run, steps, i);
  }
}
