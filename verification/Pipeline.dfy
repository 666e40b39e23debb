/** The three threads of the pipeline over two rings: ingest pushes messages, the engine pops, processes
    and pushes fills, the output thread pops fills. Any interleaving of their atomic steps. */
module Pipelines {
  import opened Types
  import opened BookSpec
  import opened EngineRuns
  import opened Bits
  import opened Spsc

  /** Where the engine loop is. */
  datatype EngineAt =
    | Popping                                   // inside try_pop, or about to call it
    | Emitting(batch: seq<Fill>, next: nat)     // pushing the fills of one message
    | Checking                                  // a pop failed; about to read the stop flag
    | Exited

  datatype Pipeline = Pipeline(
    start: Book, input: Ring<Message>, output: Ring<Fill>, at: EngineAt, book: Book,
    fills: nat, outDropped: nat, ingestDone: bool, stop: bool,
    processed: seq<Message>, produced: seq<Fill>)   // everything the engine has taken in and put out

  datatype Move =
    | Ingest(push: Step<Message>)
    | IngestExit
    | SetStop
    | EnginePop(pop: Step<Message>)
    | EnginePush(emit: Step<Fill>)
    | EngineNext
    | EngineCheck
    | Drain(take: Step<Fill>)

  /** The stop flag is raised only after ingest has returned. */
  predicate CanMove(p: Pipeline, move: Move) {
    match move
    case Ingest(step) => !p.ingestDone && IsPush(step) && Enabled(p.input, step)
    case IngestExit => !p.ingestDone && p.input.producer.NotPushing?
    case SetStop => p.ingestDone
    case EnginePop(step) =>
      p.at.Popping? && !IsPush(step) && Enabled(p.input, step)
    case EnginePush(step) =>
      && p.at.Emitting? && p.at.next < |p.at.batch| && IsPush(step) && Enabled(p.output, step)
      && (step.LoadHead? ==> step.item == p.at.batch[p.at.next])
    case EngineNext => p.at.Emitting? && p.at.next == |p.at.batch|
    case EngineCheck => p.at.Checking?
    case Drain(step) => !IsPush(step) && Enabled(p.output, step)
  }

  /** A completed pop hands its message to the engine. */
  function Processed(p: Pipeline, msg: Message): Pipeline {
    var step := Process(p.book, msg);
    p.(book := step.book, processed := p.processed + [msg], produced := p.produced + step.fills,
       at := Emitting(step.fills, 0))
  }

  function MovePop(p: Pipeline, step: Step<Message>): Pipeline
    requires CanMove(p, EnginePop(step))
  {
    var q := p.(input := Apply(p.input, step));
    if step.StoreTail? then Processed(q, p.input.consumer.value)
    else if step.ReloadHead? && q.input.consumer.NotPopping? then q.(at := Checking)
    else q
  }

  function MovePush(p: Pipeline, step: Step<Fill>): Pipeline
    requires CanMove(p, EnginePush(step))
  {
    var q := p.(output := Apply(p.output, step));
    var onward := p.at.(next := p.at.next + 1);
    if step.StoreHead? then q.(fills := p.fills + 1, at := onward)
    else if step.ReloadTail? && q.output.producer.NotPushing? then q.(outDropped := p.outDropped + 1, at := onward)
    else q
  }

  function DoMove(p: Pipeline, move: Move): Pipeline
    requires CanMove(p, move)
  {
    match move
    case Ingest(step) => p.(input := Apply(p.input, step))
    case IngestExit => p.(ingestDone := true)
    case SetStop => p.(stop := true)
    case EnginePop(step) => MovePop(p, step)
    case EnginePush(step) => MovePush(p, step)
    case EngineNext => p.(at := Popping)
    case EngineCheck => p.(at := if p.stop then Exited else Popping)
    case Drain(step) => p.(output := Apply(p.output, step))
  }

  function Startup(b: Book, bits: nat, messages: seq<Message>, fills: seq<Fill>): Pipeline {
    Pipeline(b, Fresh(bits, messages), Fresh(bits, fills), Popping, b, 0, 0, false, false, [], [])
  }

  // ---- Subsequences ----

  predicate Subseq<T(==)>(a: seq<T>, b: seq<T>)
    decreases |b|
  {
    if b == [] then a == []
    else
      || Subseq(a, b[..|b| - 1])
      || (a != [] && a[|a| - 1] == b[|b| - 1] && Subseq(a[..|a| - 1], b[..|b| - 1]))
  }

  lemma SubseqSkip<T>(a: seq<T>, b: seq<T>, x: T)
    requires Subseq(a, b)
    ensures Subseq(a, b + [x])
  {
  }

  lemma SubseqTake<T>(a: seq<T>, b: seq<T>, x: T)
    requires Subseq(a, b)
    ensures Subseq(a + [x], b + [x])
  {
  }

  lemma {:induction false} SubseqInit<T>(a: seq<T>, b: seq<T>)
    requires Subseq(a, b) && a != []
    ensures Subseq(a[..|a| - 1], b)
    decreases |b|
  {
    var b0 := b[..|b| - 1];
    if Subseq(a, b0) {
      SubseqInit(a, b0);
    }
  }

  lemma {:induction false} SubseqPrefix<T>(a: seq<T>, b: seq<T>, k: nat)
    requires Subseq(a, b) && k <= |a|
    ensures Subseq(a[..k], b)
    decreases |a|
  {
    if k < |a| {
      SubseqInit(a, b);
      SubseqPrefix(a[..|a| - 1], b, k);
      assert a[..|a| - 1][..k] == a[..k];
    } else {
      assert a[..k] == a;
    }
  }

  // ---- The invariant ----

  /** How many of the produced fills have been pushed or dropped. */
  function Handled(p: Pipeline): int {
    if p.at.Emitting? then |p.produced| - |p.at.batch| + p.at.next else |p.produced|
  }

  /** The program counters of the two rings agree with the engine's. */
  predicate Stage(p: Pipeline) {
    && (p.stop ==> p.ingestDone) && (p.ingestDone ==> p.input.producer.NotPushing?)
    && match p.at
       case Popping => p.output.producer.NotPushing?
       case Emitting(batch, next) =>
         && p.input.consumer.NotPopping? && next <= |batch| <= |p.produced|
         && p.produced[|p.produced| - |batch|..] == batch
         && (p.output.producer.NotPushing? || (next < |batch| && p.output.producer.item == batch[next]))
       case Checking => p.output.producer.NotPushing? && p.input.consumer.NotPopping?
       case Exited => p.output.producer.NotPushing? && p.input.consumer.NotPopping? && p.stop
  }

  /** The engine has processed exactly what was popped, in order. */
  predicate History(p: Pipeline) {
    && p.processed == p.input.popped
    && Outcome(p.book, p.produced) == Run(p.start, p.processed)
  }

  /** Every produced fill has been pushed or counted as dropped, in order. */
  predicate Accounts(p: Pipeline) {
    && 0 <= Handled(p) <= |p.produced|
    && p.fills + p.outDropped == Handled(p)
    && p.fills == |p.output.pushed|
    && Subseq(p.output.pushed, p.produced[..Handled(p)])
  }

  ghost predicate PipelineInv(p: Pipeline) {
    Inv(p.input) && Inv(p.output) && Stage(p) && History(p) && Accounts(p)
  }

  lemma HandledStep(p: Pipeline)
    requires Stage(p) && Accounts(p) && p.at.Emitting? && p.at.next < |p.at.batch|
    ensures p.produced[..Handled(p) + 1] == p.produced[..Handled(p)] + [p.at.batch[p.at.next]]
  {
  }

  lemma IngestKeeps(p: Pipeline, step: Step<Message>)
    requires PipelineInv(p) && CanMove(p, Ingest(step))
    ensures PipelineInv(DoMove(p, Ingest(step)))
  {
    StepKeeps(p.input, step);
    IngestStage(p, step);
  }

  lemma IngestStage(p: Pipeline, step: Step<Message>)
    requires Stage(p) && History(p) && Accounts(p) && CanMove(p, Ingest(step))
    ensures var q := DoMove(p, Ingest(step)); Stage(q) && History(q) && Accounts(q)
  {
    PushTouches(p.input, step);
  }

  lemma ProcessedKeeps(p: Pipeline, msg: Message)
    requires p.output.producer.NotPushing? && p.input.consumer.NotPopping?
    requires (p.stop ==> p.ingestDone) && (p.ingestDone ==> p.input.producer.NotPushing?)
    requires p.at.Popping? && p.input.popped == p.processed + [msg]
    requires Outcome(p.book, p.produced) == Run(p.start, p.processed) && Accounts(p)
    ensures Stage(Processed(p, msg)) && History(Processed(p, msg)) && Accounts(Processed(p, msg))
  {
    var q, batch := Processed(p, msg), Process(p.book, msg).fills;
    RunSnoc(p.start, p.processed, msg);
    assert q.produced[|p.produced|..] == batch;
    assert q.produced[..|p.produced|] == p.produced == p.produced[..|p.produced|];
  }

  lemma PopKeeps(p: Pipeline, step: Step<Message>)
    requires PipelineInv(p) && CanMove(p, EnginePop(step))
    ensures PipelineInv(DoMove(p, EnginePop(step)))
  {
    StepKeeps(p.input, step);
    if step.StoreTail? {
      var q := p.(input := Apply(p.input, step));
      ProcessedKeeps(q, p.input.consumer.value);
    } else if step.ReloadHead? {
      RefusedPop(p.input, step.seen);
    }
  }

  lemma PushStage(p: Pipeline, step: Step<Fill>)
    requires Stage(p) && CanMove(p, EnginePush(step))
    ensures Stage(MovePush(p, step))
  {
    PushTouches(p.output, step);
  }

  /** The next fill of the batch was pushed. */
  lemma AccountsTake(p: Pipeline, q: Pipeline)
    requires Stage(p) && Accounts(p) && p.at.Emitting? && p.at.next < |p.at.batch|
    requires q.produced == p.produced && q.at == p.at.(next := p.at.next + 1)
    requires q.fills == p.fills + 1 && q.outDropped == p.outDropped
    requires q.output.pushed == p.output.pushed + [p.at.batch[p.at.next]]
    ensures Accounts(q)
  {
    HandledStep(p);
    SubseqTake(p.output.pushed, p.produced[..Handled(p)], p.at.batch[p.at.next]);
  }

  /** The next fill of the batch was dropped. */
  lemma AccountsSkip(p: Pipeline, q: Pipeline)
    requires Stage(p) && Accounts(p) && p.at.Emitting? && p.at.next < |p.at.batch|
    requires q.produced == p.produced && q.at == p.at.(next := p.at.next + 1)
    requires q.fills == p.fills && q.outDropped == p.outDropped + 1 && q.output.pushed == p.output.pushed
    ensures Accounts(q)
  {
    HandledStep(p);
    SubseqSkip(p.output.pushed, p.produced[..Handled(p)], p.at.batch[p.at.next]);
  }

  lemma AccountsSame(p: Pipeline, q: Pipeline)
    requires Accounts(p) && q.produced == p.produced && q.at == p.at
    requires q.fills == p.fills && q.outDropped == p.outDropped && q.output.pushed == p.output.pushed
    ensures Accounts(q)
  {
  }

  lemma PushAccounts(p: Pipeline, step: Step<Fill>)
    requires Stage(p) && Accounts(p) && CanMove(p, EnginePush(step))
    ensures Accounts(MovePush(p, step))
  {
    PushTouches(p.output, step);
    var q := MovePush(p, step);
    if step.StoreHead? {
      AccountsTake(p, q);
    } else if step.ReloadTail? && q.output.producer.NotPushing? {
      AccountsSkip(p, q);
    } else {
      AccountsSame(p, q);
    }
  }

  lemma PushElsewhere(p: Pipeline, step: Step<Fill>)
    requires History(p) && CanMove(p, EnginePush(step))
    ensures var q := MovePush(p, step);
            q.input == p.input && q.output == Apply(p.output, step) && History(q)
  {
  }

  lemma PushKeeps(p: Pipeline, step: Step<Fill>)
    requires PipelineInv(p) && CanMove(p, EnginePush(step))
    ensures PipelineInv(MovePush(p, step))
  {
    StepKeeps(p.output, step);
    PushElsewhere(p, step);
    PushStage(p, step);
    PushAccounts(p, step);
  }

  lemma DrainStage(p: Pipeline, step: Step<Fill>)
    requires Stage(p) && History(p) && Accounts(p) && CanMove(p, Drain(step))
    ensures var q := DoMove(p, Drain(step)); Stage(q) && History(q) && Accounts(q)
  {
    PopTouches(p.output, step);
  }

  lemma DrainKeeps(p: Pipeline, step: Step<Fill>)
    requires PipelineInv(p) && CanMove(p, Drain(step))
    ensures PipelineInv(DoMove(p, Drain(step)))
  {
    StepKeeps(p.output, step);
    DrainStage(p, step);
  }

  lemma MoveKeeps(p: Pipeline, move: Move)
    requires PipelineInv(p) && CanMove(p, move)
    ensures PipelineInv(DoMove(p, move))
  {
    match move
    case Ingest(step) => IngestKeeps(p, step);
    case IngestExit =>
    case SetStop =>
    case EnginePop(step) => PopKeeps(p, step);
    case EnginePush(step) => PushKeeps(p, step);
    case EngineNext =>
    case EngineCheck =>
    case Drain(step) => DrainKeeps(p, step);
  }

  // ---- Every interleaving ----

  predicate CanRun(p: Pipeline, moves: seq<Move>)
    decreases |moves|
  {
    moves == [] || (CanMove(p, moves[0]) && CanRun(DoMove(p, moves[0]), moves[1..]))
  }

  function AfterRun(p: Pipeline, moves: seq<Move>): Pipeline
    requires CanRun(p, moves)
    decreases |moves|
  {
    if moves == [] then p else AfterRun(DoMove(p, moves[0]), moves[1..])
  }

  lemma {:induction false} RunKeepsPipeline(p: Pipeline, moves: seq<Move>)
    requires PipelineInv(p) && CanRun(p, moves)
    ensures PipelineInv(AfterRun(p, moves)) && AfterRun(p, moves).start == p.start
    decreases |moves|
  {
    if moves != [] {
      MoveKeeps(p, moves[0]);
      RunKeepsPipeline(DoMove(p, moves[0]), moves[1..]);
    }
  }

  lemma StartupInv(b: Book, bits: nat, messages: seq<Message>, fills: seq<Fill>)
    requires bits > 0 && |messages| == |fills| == Pow2(bits)
    ensures PipelineInv(Startup(b, bits, messages, fills))
  {
  }

  /** Over every interleaving: the engine processes an in-order prefix of what was accepted, its book and
      fills are those of that prefix, at each message boundary every fill was pushed or counted as
      dropped, and the output thread sees an in-order subsequence. */
  lemma EveryRunAccounts(b: Book, bits: nat, messages: seq<Message>, fills: seq<Fill>, moves: seq<Move>)
    requires bits > 0 && |messages| == |fills| == Pow2(bits)
    requires CanRun(Startup(b, bits, messages, fills), moves)
    ensures var p := AfterRun(Startup(b, bits, messages, fills), moves);
            && p.processed <= p.input.pushed
            && Outcome(p.book, p.produced) == Run(b, p.processed)
            && (!p.at.Emitting? ==> p.fills + p.outDropped == |p.produced|)
            && p.output.popped <= p.output.pushed && Subseq(p.output.popped, p.produced)
  {
    StartupInv(b, bits, messages, fills);
    RunKeepsPipeline(Startup(b, bits, messages, fills), moves);
    var p := AfterRun(Startup(b, bits, messages, fills), moves);
    SubseqPrefix(p.output.pushed, p.produced[..Handled(p)], |p.output.popped|);
    SubseqGrow(p.output.popped, p.produced, Handled(p));
  }

  lemma {:induction false} SubseqGrow<T>(a: seq<T>, b: seq<T>, k: nat)
    requires k <= |b| && Subseq(a, b[..k])
    ensures Subseq(a, b)
    decreases |b| - k
  {
    if k < |b| {
      SubseqSkip(a, b[..k], b[k]);
      assert b[..k] + [b[k]] == b[..k + 1];
      SubseqGrow(a, b, k + 1);
    } else {
      assert b[..k] == b;
    }
  }

  // ---- Every fill is tried exactly once ----

  /** The fill a move starts to push, if it does. */
  function Tried(move: Move): seq<Fill> {
    if move.EnginePush? && move.emit.LoadHead? then [move.emit.item] else []
  }

  /** A push given up: as of the tail it loaded, the output ring held all it can. */
  predicate GivesUp(p: Pipeline, move: Move) {
    && move.EnginePush? && move.emit.ReloadTail?
    && |p.output.pushed| - move.emit.seen == p.output.Capacity() - 1
  }

  predicate Delivers(move: Move) {
    move.EnginePush? && move.emit.StoreHead?
  }

  function Attempts(moves: seq<Move>): seq<Fill> {
    if moves == [] then [] else Tried(moves[0]) + Attempts(moves[1..])
  }

  function Refusals(p: Pipeline, moves: seq<Move>): nat
    requires CanRun(p, moves)
    decreases |moves|
  {
    if moves == [] then 0
    else (if GivesUp(p, moves[0]) then 1 else 0) + Refusals(DoMove(p, moves[0]), moves[1..])
  }

  function Deliveries(moves: seq<Move>): nat {
    if moves == [] then 0 else (if Delivers(moves[0]) then 1 else 0) + Deliveries(moves[1..])
  }

  /** How many of the produced fills the engine has started to push. */
  function Begun(p: Pipeline): int {
    Handled(p) + if p.output.producer.NotPushing? then 0 else 1
  }

  function Started(p: Pipeline): seq<Fill> {
    if 0 <= Begun(p) <= |p.produced| then p.produced[..Begun(p)] else []
  }

  lemma BegunWithin(p: Pipeline)
    requires Stage(p) && Accounts(p)
    ensures 0 <= Begun(p) <= |p.produced| && (!p.at.Emitting? ==> Started(p) == p.produced)
    ensures |Started(p)| == p.fills + p.outDropped + if p.output.producer.NotPushing? then 0 else 1
  {
  }

  /** What one move adds to the counters and to the fills tried. */
  predicate Counted(p: Pipeline, move: Move, q: Pipeline) {
    && Started(q) == Started(p) + Tried(move)
    && q.outDropped == p.outDropped + (if GivesUp(p, move) then 1 else 0)
    && q.fills == p.fills + (if Delivers(move) then 1 else 0)
  }

  /** A push that begins tries the next fill of the batch. */
  lemma StartedMore(p: Pipeline, q: Pipeline)
    requires Stage(p) && Accounts(p) && p.at.Emitting? && p.at.next < |p.at.batch| && p.output.producer.NotPushing?
    requires q.produced == p.produced && q.at == p.at && !q.output.producer.NotPushing?
    ensures Started(q) == Started(p) + [p.at.batch[p.at.next]]
  {
    HandledStep(p);
  }

  /** A push that ends, either way, settles the fill it tried. */
  lemma StartedSettled(p: Pipeline, q: Pipeline)
    requires p.at.Emitting? && !p.output.producer.NotPushing?
    requires q.produced == p.produced && q.at == p.at.(next := p.at.next + 1) && q.output.producer.NotPushing?
    ensures Started(q) == Started(p)
  {
  }

  /** A push under way, before it is settled. */
  lemma StartedSame(p: Pipeline, q: Pipeline)
    requires q.produced == p.produced && q.at == p.at
    requires q.output.producer.NotPushing? == p.output.producer.NotPushing?
    ensures Started(q) == Started(p)
  {
  }

  /** The test of a push that reloads the tail: given up, or under way. */
  lemma ReloadCounted(p: Pipeline, seen: nat)
    requires Inv(p.output) && CanMove(p, EnginePush(ReloadTail(seen)))
    ensures Counted(p, EnginePush(ReloadTail(seen)), MovePush(p, ReloadTail(seen)))
  {
    var q := MovePush(p, ReloadTail(seen));
    RefusedPush(p.output, seen);
    if q.output.producer.NotPushing? {
      StartedSettled(p, q);
    } else {
      StartedSame(p, q);
    }
  }

  lemma PushCounted(p: Pipeline, step: Step<Fill>)
    requires Inv(p.output) && Stage(p) && Accounts(p) && CanMove(p, EnginePush(step))
    ensures Counted(p, EnginePush(step), MovePush(p, step))
  {
    var q := MovePush(p, step);
    match step
    case LoadHead(_) => StartedMore(p, q);
    case StoreHead => StartedSettled(p, q);
    case ReloadTail(seen) => ReloadCounted(p, seen);
    case TrustTailCache => StartedSame(p, q);
    case WriteSlot => StartedSame(p, q);
    case _ =>
  }

  lemma PopCounted(p: Pipeline, step: Step<Message>)
    requires PipelineInv(p) && CanMove(p, EnginePop(step))
    ensures Counted(p, EnginePop(step), MovePop(p, step))
  {
    var q := MovePop(p, step);
    assert q.produced[..|p.produced|] == p.produced;
  }

  lemma MoveCounted(p: Pipeline, move: Move)
    requires PipelineInv(p) && CanMove(p, move)
    ensures Counted(p, move, DoMove(p, move))
  {
    match move
    case EnginePush(step) => PushCounted(p, step);
    case EnginePop(step) => PopCounted(p, step);
    case Drain(step) =>
      PopTouches(p.output, step);
      SameCounted(p, move, DoMove(p, move));
    case Ingest(_) => SameCounted(p, move, DoMove(p, move));
    case IngestExit => SameCounted(p, move, DoMove(p, move));
    case SetStop => SameCounted(p, move, DoMove(p, move));
    case EngineNext => SameCounted(p, move, DoMove(p, move));
    case EngineCheck => SameCounted(p, move, DoMove(p, move));
  }

  /** A move that neither pushes nor produces a fill. */
  lemma SameCounted(p: Pipeline, move: Move, q: Pipeline)
    requires !move.EnginePush? && q.output.producer == p.output.producer && q.produced == p.produced
    requires Handled(q) == Handled(p) && q.fills == p.fills && q.outDropped == p.outDropped
    ensures Counted(p, move, q)
  {
  }

  /** The totals of a run. */
  predicate CountedRun(p: Pipeline, moves: seq<Move>, q: Pipeline)
    requires CanRun(p, moves)
  {
    && Started(q) == Started(p) + Attempts(moves)
    && q.outDropped == p.outDropped + Refusals(p, moves) && q.fills == p.fills + Deliveries(moves)
  }

  lemma CountedCons(p: Pipeline, move: Move, p1: Pipeline, rest: seq<Move>, q: Pipeline)
    requires CanMove(p, move) && p1 == DoMove(p, move) && CanRun(p1, rest) && CanRun(p, [move] + rest)
    requires Counted(p, move, p1) && CountedRun(p1, rest, q)
    ensures CountedRun(p, [move] + rest, q)
  {
    MovesCons(move, rest);
    RefusalsCons(p, move, p1, rest);
    FillsChain(Started(p), Tried(move), Attempts(rest));
  }

  lemma MovesCons(move: Move, rest: seq<Move>)
    ensures Attempts([move] + rest) == Tried(move) + Attempts(rest)
    ensures Deliveries([move] + rest) == (if Delivers(move) then 1 else 0) + Deliveries(rest)
  {
  }

  lemma RefusalsCons(p: Pipeline, move: Move, p1: Pipeline, rest: seq<Move>)
    requires CanMove(p, move) && p1 == DoMove(p, move) && CanRun(p1, rest) && CanRun(p, [move] + rest)
    ensures Refusals(p, [move] + rest) == (if GivesUp(p, move) then 1 else 0) + Refusals(p1, rest)
  {
    assert ([move] + rest)[0] == move && ([move] + rest)[1..] == rest;
  }

  lemma FillsChain(a: seq<Fill>, b: seq<Fill>, c: seq<Fill>)
    ensures (a + b) + c == a + (b + c)
  {
  }

  lemma {:induction false} RunCounted(p: Pipeline, moves: seq<Move>)
    requires PipelineInv(p) && CanRun(p, moves)
    ensures CountedRun(p, moves, AfterRun(p, moves))
    decreases |moves|
  {
    if moves != [] {
      var p1 := DoMove(p, moves[0]);
      assert moves == [moves[0]] + moves[1..];
      MoveKeeps(p, moves[0]);
      MoveCounted(p, moves[0]);
      RunCounted(p1, moves[1..]);
      CountedCons(p, moves[0], p1, moves[1..], AfterRun(p1, moves[1..]));
    }
  }

  /** Over every interleaving: the fills the engine tries to push are the fills produced, each once and in
      order, all of them at a message boundary. Each try ends in one delivery or, if and only if the ring was
      full as of the tail loaded, in one drop. */
  lemma EveryFillTriedOnce(b: Book, bits: nat, messages: seq<Message>, fills: seq<Fill>, moves: seq<Move>)
    requires bits > 0 && |messages| == |fills| == Pow2(bits)
    requires CanRun(Startup(b, bits, messages, fills), moves)
    ensures var p := AfterRun(Startup(b, bits, messages, fills), moves);
            && Attempts(moves) <= p.produced && (!p.at.Emitting? ==> Attempts(moves) == p.produced)
            && p.fills == Deliveries(moves) && p.outDropped == Refusals(Startup(b, bits, messages, fills), moves)
            && |Attempts(moves)| == p.fills + p.outDropped + (if p.output.producer.NotPushing? then 0 else 1)
  {
    var p0 := Startup(b, bits, messages, fills);
    StartupInv(b, bits, messages, fills);
    RunCounted(p0, moves);
    RunKeepsPipeline(p0, moves);
    BegunWithin(AfterRun(p0, moves));
    assert Started(p0) + Attempts(moves) == Attempts(moves);
  }

  // ---- No thread of the pipeline is ever stuck ----

  /** In every reachable state each thread that has not returned can take its next step: ingest and output in
      their rings, the engine in whichever loop it is in. A check that finds no stop leads back to popping. */
  lemma EveryThreadContinues(b: Book, bits: nat, messages: seq<Message>, fills: seq<Fill>, moves: seq<Move>,
                             msg: Message)
    requires bits > 0 && |messages| == |fills| == Pow2(bits)
    requires CanRun(Startup(b, bits, messages, fills), moves)
    ensures var p := AfterRun(Startup(b, bits, messages, fills), moves);
            && (!p.ingestDone ==> CanMove(p, Ingest(ProducerNext(p.input, msg))))
            && CanMove(p, Drain(ConsumerNext(p.output)))
            && (p.at.Popping? ==> CanMove(p, EnginePop(ConsumerNext(p.input))))
            && (p.at.Emitting? && p.at.next < |p.at.batch| ==>
                  CanMove(p, EnginePush(ProducerNext(p.output, p.at.batch[p.at.next]))))
            && (p.at.Emitting? && p.at.next >= |p.at.batch| ==> CanMove(p, EngineNext))
            && (p.at.Checking? ==>
                  && CanMove(p, EngineCheck)
                  && (p.stop ==> DoMove(p, EngineCheck).at.Exited?)
                  && (!p.stop ==> CanMove(DoMove(p, EngineCheck), EnginePop(LoadTail))))
  {
    StartupInv(b, bits, messages, fills);
    RunKeepsPipeline(Startup(b, bits, messages, fills), moves);
    var p := AfterRun(Startup(b, bits, messages, fills), moves);
    NeverStuck(p.input, msg);
    NeverStuck(p.output, if p.at.Emitting? && p.at.next < |p.at.batch| then p.at.batch[p.at.next] else fills[0]);
  }

  // ---- What an exit leaves behind ----

  /** Moves that make a message visible to the engine. */
  predicate Publishes(move: Move) {
    move.Ingest? && move.push.StoreHead?
  }

  predicate NoPublish(moves: seq<Move>) {
    forall i :: 0 <= i < |moves| ==> !Publishes(moves[i])
  }

  predicate NoPop(moves: seq<Move>) {
    forall i :: 0 <= i < |moves| ==> !moves[i].EnginePop?
  }

  lemma {:induction false} RunSplit(p: Pipeline, moves: seq<Move>, k: nat)
    requires CanRun(p, moves) && k <= |moves|
    ensures CanRun(p, moves[..k]) && CanRun(AfterRun(p, moves[..k]), moves[k..])
    ensures AfterRun(p, moves) == AfterRun(AfterRun(p, moves[..k]), moves[k..])
    decreases k
  {
    if k == 0 {
      assert moves[0..] == moves;
    } else {
      RunSplit(DoMove(p, moves[0]), moves[1..], k - 1);
      assert moves[..k][1..] == moves[1..][..k - 1] && moves[1..][k - 1..] == moves[k..];
    }
  }

  /** While the engine takes nothing in, the input grows exactly by what is published, and not at all once
      ingest has returned; and only a waiting engine exits. */
  lemma {:induction false} WaitingRun(p: Pipeline, moves: seq<Move>)
    requires CanRun(p, moves) && NoPop(moves)
    ensures var q := AfterRun(p, moves);
            && q.processed == p.processed
            && |p.input.pushed| <= |q.input.pushed| && q.input.pushed[..|p.input.pushed|] == p.input.pushed
            && (|q.input.pushed| == |p.input.pushed| <==> NoPublish(moves))
            && (p.ingestDone ==> NoPublish(moves))
            && (q.at.Exited? ==> p.at.Checking? || p.at.Exited?)
    decreases |moves|
  {
    if moves != [] {
      WaitingMove(p, moves[0]);
      WaitingRun(DoMove(p, moves[0]), moves[1..]);
      assert moves == [moves[0]] + moves[1..];
    }
  }

  lemma WaitingMove(p: Pipeline, move: Move)
    requires CanMove(p, move) && !move.EnginePop?
    ensures var q := DoMove(p, move);
            && q.processed == p.processed && (p.ingestDone ==> q.ingestDone && !Publishes(move))
            && q.input.pushed == (if Publishes(move) then p.input.pushed + [p.input.producer.item] else p.input.pushed)
            && (q.at.Checking? || q.at.Exited? ==> p.at.Checking? || p.at.Exited?)
  {
  }

  /** A run that exits has a last pop. */
  lemma {:induction false} LastPop(p: Pipeline, moves: seq<Move>) returns (k: nat)
    requires CanRun(p, moves) && AfterRun(p, moves).at.Exited? && !p.at.Checking? && !p.at.Exited?
    ensures k < |moves| && moves[k].EnginePop? && NoPop(moves[k + 1..])
  {
    WaitingRunExits(p, moves);
    k := |moves| - 1;
    while !moves[k].EnginePop?
      invariant k < |moves| && NoPop(moves[k + 1..])
      invariant exists i :: 0 <= i <= k && moves[i].EnginePop?
      decreases k
    {
      assert moves[k..] == [moves[k]] + moves[k + 1..];
      k := k - 1;
    }
  }

  lemma WaitingRunExits(p: Pipeline, moves: seq<Move>)
    requires CanRun(p, moves) && AfterRun(p, moves).at.Exited? && !p.at.Checking? && !p.at.Exited?
    ensures exists i :: 0 <= i < |moves| && moves[i].EnginePop?
  {
    if NoPop(moves) {
      WaitingRun(p, moves);
    }
  }

  /** A pop after which the engine may exit without another is a refused one: everything it could see has
      been processed. */
  lemma RefusedLast(p: Pipeline, pop: Step<Message>)
    requires PipelineInv(p) && CanMove(p, EnginePop(pop)) && DoMove(p, EnginePop(pop)).at.Checking?
    ensures pop.ReloadHead? && pop.seen <= |p.input.pushed| && p.processed == p.input.pushed[..pop.seen]
    ensures var q := DoMove(p, EnginePop(pop));
            q.processed == p.processed && q.input.pushed == p.input.pushed && q.ingestDone == p.ingestDone
  {
    RefusedPop(p.input, pop.seen);
  }

  /** Every exit, by its schedule: let `k` be the engine's last pop. It was refused, and everything it could
      see has been processed. The input is drained exactly when that pop's load was fresh and ingest
      published nothing afterwards; in particular when ingest had already returned. */
  lemma ExitDrains(b: Book, bits: nat, messages: seq<Message>, fills: seq<Fill>, moves: seq<Move>, k: nat)
    requires bits > 0 && |messages| == |fills| == Pow2(bits)
    requires CanRun(Startup(b, bits, messages, fills), moves)
    requires AfterRun(Startup(b, bits, messages, fills), moves).at.Exited?
    requires k < |moves| && moves[k].EnginePop? && NoPop(moves[k + 1..])
    ensures CanRun(Startup(b, bits, messages, fills), moves[..k]) && moves[k].pop.ReloadHead?
    ensures var p := AfterRun(Startup(b, bits, messages, fills), moves[..k]);
            var end := AfterRun(Startup(b, bits, messages, fills), moves);
            var latest := moves[k].pop.seen == |p.input.pushed|;
            && moves[k].pop.seen <= |p.input.pushed| && end.processed == p.input.pushed[..moves[k].pop.seen]
            && (end.processed == end.input.pushed <==> latest && NoPublish(moves[k + 1..]))
            && (latest && p.ingestDone ==> end.processed == end.input.pushed)
            && end.fills + end.outDropped == |end.produced|
  {
    var p0 := Startup(b, bits, messages, fills);
    RunSplit(p0, moves, k);
    var p := AfterRun(p0, moves[..k]);
    StartupInv(b, bits, messages, fills);
    RunKeepsPipeline(p0, moves[..k]);
    RunKeepsPipeline(p0, moves);
    assert moves[k..][0] == moves[k] && moves[k..][1..] == moves[k + 1..];
    LastPopOutcome(p, moves[k].pop, moves[k + 1..]);
  }

  /** What follows from a last pop, for the run that starts with it. */
  lemma LastPopOutcome(p: Pipeline, pop: Step<Message>, after: seq<Move>)
    requires PipelineInv(p) && CanMove(p, EnginePop(pop)) && CanRun(DoMove(p, EnginePop(pop)), after) && NoPop(after)
    requires AfterRun(DoMove(p, EnginePop(pop)), after).at.Exited?
    ensures pop.ReloadHead? && pop.seen <= |p.input.pushed|
    ensures var end := AfterRun(DoMove(p, EnginePop(pop)), after); var latest := pop.seen == |p.input.pushed|;
            && end.processed == p.input.pushed[..pop.seen]
            && (end.processed == end.input.pushed <==> latest && NoPublish(after))
            && (latest && p.ingestDone ==> end.processed == end.input.pushed)
  {
    WaitingRun(DoMove(p, EnginePop(pop)), after);
    RefusedLast(p, pop);
  }

  // ---- The drain is not unconditional ----

  lemma RunCons(p: Pipeline, move: Move, rest: seq<Move>)
    requires CanMove(p, move) && CanRun(DoMove(p, move), rest)
    ensures CanRun(p, [move] + rest) && AfterRun(p, [move] + rest) == AfterRun(DoMove(p, move), rest)
  {
  }

  lemma FirstSlotFree<T>(bits: nat, buffer: seq<T>)
    requires bits > 0 && |buffer| == Pow2(bits)
    ensures Fresh(bits, buffer).Next(0) != 0
  {
  }

  /** The steps of one push that trusts its cache, before `rest`. */
  function PushMoves(msg: Message, rest: seq<Move>): seq<Move> {
    [Ingest(LoadHead(msg))] + ([Ingest(TrustTailCache)] + ([Ingest(WriteSlot)] + ([Ingest(StoreHead)] + rest)))
  }

  function Ingested(p: Pipeline, msg: Message): Pipeline
    requires p.input.head < |p.input.buffer|
  {
    var r := p.input;
    p.(input := r.(buffer := r.buffer[r.head := msg], head := r.Next(r.head), pushed := r.pushed + [msg]))
  }

  lemma PushRuns(p: Pipeline, msg: Message, rest: seq<Move>)
    requires !p.ingestDone && p.input.producer.NotPushing? && p.input.head < |p.input.buffer|
    requires p.input.Next(p.input.head) != p.input.tailCache && CanRun(Ingested(p, msg), rest)
    ensures CanRun(p, PushMoves(msg, rest)) && AfterRun(p, PushMoves(msg, rest)) == AfterRun(Ingested(p, msg), rest)
  {
    var p1 := DoMove(p, Ingest(LoadHead(msg)));
    var p2 := DoMove(p1, Ingest(TrustTailCache));
    var p3 := DoMove(p2, Ingest(WriteSlot));
    assert DoMove(p3, Ingest(StoreHead)) == Ingested(p, msg);
    RunCons(p3, Ingest(StoreHead), rest);
    RunCons(p2, Ingest(WriteSlot), [Ingest(StoreHead)] + rest);
    RunCons(p1, Ingest(TrustTailCache), [Ingest(WriteSlot)] + ([Ingest(StoreHead)] + rest));
    RunCons(p, Ingest(LoadHead(msg)), [Ingest(TrustTailCache)] + ([Ingest(WriteSlot)] + ([Ingest(StoreHead)] + rest)));
  }

  /** Ingest returns, the stop flag goes up, and only then does the engine read the flag. */
  function StopMoves(): seq<Move> {
    [IngestExit] + ([SetStop] + ([EngineCheck] + []))
  }

  lemma StopRuns(p: Pipeline)
    requires !p.ingestDone && p.input.producer.NotPushing? && p.at.Checking?
    ensures CanRun(p, StopMoves()) && AfterRun(p, StopMoves()) == p.(ingestDone := true, stop := true, at := Exited)
  {
    var p1 := DoMove(p, IngestExit);
    var p2 := DoMove(p1, SetStop);
    RunCons(p2, EngineCheck, []);
    RunCons(p1, SetStop, [EngineCheck] + []);
    RunCons(p, IngestExit, [SetStop] + ([EngineCheck] + []));
  }

  /** The engine finds nothing, one message is pushed, and then everything stops. */
  function LateFlag(msg: Message): seq<Move> {
    [EnginePop(LoadTail)] + ([EnginePop(ReloadHead(0))] + PushMoves(msg, StopMoves()))
  }

  /** On any ring and with any message there is a run that exits with that message never processed. */
  lemma DrainCanMiss(b: Book, bits: nat, messages: seq<Message>, fills: seq<Fill>, msg: Message)
    requires bits > 0 && |messages| == |fills| == Pow2(bits)
    ensures var p0 := Startup(b, bits, messages, fills);
            && CanRun(p0, LateFlag(msg))
            && var p := AfterRun(p0, LateFlag(msg));
               p.at.Exited? && p.input.pushed == [msg] && p.processed == []
  {
    var p0 := Startup(b, bits, messages, fills);
    FirstSlotFree(bits, messages);
    var p1 := DoMove(p0, EnginePop(LoadTail));
    var p2 := DoMove(p1, EnginePop(ReloadHead(0)));
    assert p2.input.Next(0) == p0.input.Next(0);
    StopRuns(Ingested(p2, msg));
    PushRuns(p2, msg, StopMoves());
    RunCons(p1, EnginePop(ReloadHead(0)), PushMoves(msg, StopMoves()));
    RunCons(p0, EnginePop(LoadTail), [EnginePop(ReloadHead(0))] + PushMoves(msg, StopMoves()));
  }
}
