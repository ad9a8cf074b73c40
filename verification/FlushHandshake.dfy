/** The flush handshake between the clients of a Blockstore and its one worker, as a state machine
    whose steps are the atomic actions of the goroutines in any interleaving. */
module FlushHandshake {
  const PUTS_QUEUE := 640                // capacity of the puts channel
  const MAX_QUEUED_BLOCKS := 640
  const MAX_UNFLUSHED_BLOCKS := 10240

  /** A Put or PutMany call and how many blocks it carries. */
  datatype Request = Request(id: nat, blocks: nat)

  /** Why flushBatch runs: a taken flush token, or too many unflushed blocks after a put. */
  datatype Cause = Token | AfterPut(reqs: seq<Request>)

  datatype Worker =
    | Idle
    | Collecting(reqs: seq<Request>)
    | Putting(reqs: seq<Request>)
    | Draining(cause: Cause)                             // flushBatch: about to consume a queued token
    | Loading(cause: Cause)                              // about to read flushReq
    | Flushing(cause: Cause, newPos: nat)                // about to flush the batch
    | Storing(cause: Cause, newPos: nat, ok: bool)       // about to run the deferred flushPos.Store
    | Responding(reqs: seq<Request>, ok: bool)
    | Stopping                                           // about to flush what is left of the batch
    | Exited

  /** A Flush call: its position and the puts acknowledged before it began. */
  datatype Flusher =
    | Asked(now: nat, cover: set<nat>)     // has incremented flushReq
    | Waiting(now: nat, cover: set<nat>)   // has offered a token
    | Done(now: nat, cover: set<nat>)      // has returned nil
    | GaveUp                               // has returned an error: cancelled or stopped

  datatype State = State(
    puts: seq<Request>,
    flushReq: nat,
    flushPos: nat,
    token: bool,              // the one-place flush channel
    worker: Worker,
    batch: set<nat>,          // put in the open batch
    open: bool,               // bt != nil
    batched: seq<Request>,    // the successful puts in it
    unflushed: nat,
    durable: set<nat>,        // flushed
    acked: set<nat>,          // answered with nil
    failed: set<nat>,         // answered with an error
    goodPos: nat,             // last position published by a flush that succeeded
    flushers: map<nat, Flusher>)

  datatype Step =
    | Send(r: Request)                    // Put, PutMany: into the channel
    | TakePut | TakeMore | EndCollect     // the worker's put branch
    | BatchPut(ok: bool, partial: set<nat>)
    | Respond
    | TakeToken                           // the worker's flush branch
    | Drain | Load | Store
    | FlushBatch(ok: bool, partial: set<nat>)  // one that fails may have flushed some of the batch
    | Exit                                // stop
    | FinalFlush(ok: bool, partial: set<nat>)
    | Begin(f: nat) | Offer(f: nat) | Return(f: nat) | GiveUp(f: nat)

  function Init(): State {
    State([], 0, 0, false, Idle, {}, false, [], 0, {}, {}, {}, 0, map[])
  }

  function Ids(rs: seq<Request>): set<nat> { set r | r in rs :: r.id }

  function Blocks(rs: seq<Request>): nat { if rs == [] then 0 else rs[0].blocks + Blocks(rs[1..]) }

  /** The collecting loop looks at the number of blocks only after it has taken a further request. */
  predicate Enough(rs: seq<Request>) { |rs| > 1 && Blocks(rs) > MAX_QUEUED_BLOCKS }

  ghost predicate Enabled(s: State, e: Step) {
    match e
    case Send(_) => |s.puts| < PUTS_QUEUE
    case TakePut => s.worker.Idle? && s.puts != []
    case TakeMore => s.worker.Collecting? && s.puts != [] && !Enough(s.worker.reqs)
    case EndCollect => s.worker.Collecting? && (s.puts == [] || Enough(s.worker.reqs))
    case BatchPut(ok, partial) => s.worker.Putting? && partial <= Ids(s.worker.reqs)
    case Respond => s.worker.Responding?
    case TakeToken => s.worker.Idle? && s.token
    case Drain => s.worker.Draining?
    case Load => s.worker.Loading?
    case FlushBatch(_, partial) => s.worker.Flushing? && partial <= s.batch
    case Store => s.worker.Storing?
    case Exit => s.worker.Idle?
    case FinalFlush(_, partial) => s.worker.Stopping? && partial <= s.batch
    case Begin(f) => f !in s.flushers
    case Offer(f) => f in s.flushers && s.flushers[f].Asked?
    case Return(f) => f in s.flushers && s.flushers[f].Waiting? && s.flushPos >= s.flushers[f].now
    case GiveUp(f) => f in s.flushers && s.flushers[f].Waiting?
  }

  ghost function Apply(s: State, e: Step): State
    requires Enabled(s, e)
  {
    match e
    case Send(r) => s.(puts := s.puts + [r])
    case TakePut => s.(puts := s.puts[1..], worker := Collecting([s.puts[0]]))
    case TakeMore => s.(puts := s.puts[1..], worker := Collecting(s.worker.reqs + [s.puts[0]]))
    case EndCollect => s.(worker := Putting(s.worker.reqs))
    case BatchPut(ok, partial) =>
      var reqs := s.worker.reqs;
      if !ok then s.(open := true, batch := s.batch + partial, worker := Responding(reqs, false))
      else
        var unflushed := s.unflushed + Blocks(reqs);
        s.(open := true, batch := s.batch + Ids(reqs), batched := s.batched + reqs, unflushed := unflushed,
           worker := if unflushed > MAX_UNFLUSHED_BLOCKS then Draining(AfterPut(reqs)) else Responding(reqs, true))
    case Respond =>
      var reqs, ok := s.worker.reqs, s.worker.ok;
      if reqs == [] then s.(worker := Idle)
      else
        s.(acked := if ok then s.acked + {reqs[0].id} else s.acked,
           failed := if ok then s.failed else s.failed + {reqs[0].id},
           worker := Responding(reqs[1..], ok))
    case TakeToken => s.(token := false, worker := Draining(Token))
    case Drain => s.(token := false, worker := Loading(s.worker.cause))
    case Load => s.(worker := Flushing(s.worker.cause, s.flushReq))
    case FlushBatch(ok, partial) =>
      var good := ok || !s.open;
      var w := Storing(s.worker.cause, s.worker.newPos, good);
      if good && s.open then
        s.(durable := s.durable + s.batch, batch := {}, batched := [], open := false, unflushed := 0, worker := w)
      else s.(durable := s.durable + partial, worker := w)
    case Store =>
      var w := s.worker;
      s.(flushPos := w.newPos, goodPos := if w.ok then w.newPos else s.goodPos,
         worker := match w.cause
                   case Token => if w.ok then Idle else Stopping
                   case AfterPut(reqs) => Responding(reqs, w.ok))
    case Exit => s.(worker := Stopping)
    case FinalFlush(ok, partial) =>
      s.(durable := s.durable + if ok then s.batch else partial, worker := Exited)
    // now is a new position, and the cover is what has been acknowledged so far
    case Begin(f) => s.(flushReq := s.flushReq + 1, flushers := s.flushers[f := Asked(s.flushReq + 1, s.acked)])
    case Offer(f) => s.(token := true, flushers := s.flushers[f := Waiting(s.flushers[f].now, s.flushers[f].cover)])
    case Return(f) => s.(flushers := s.flushers[f := Done(s.flushers[f].now, s.flushers[f].cover)])
    case GiveUp(f) => s.(flushers := s.flushers[f := GaveUp])
  }

  ghost predicate Valid(s: State, run: seq<Step>)
    decreases |run|
  {
    run == [] || (Enabled(s, run[0]) && Valid(Apply(s, run[0]), run[1..]))
  }

  ghost function After(s: State, run: seq<Step>): State
    requires Valid(s, run)
    decreases |run|
  {
    if run == [] then s else After(Apply(s, run[0]), run[1..])
  }

  // ---- invariants -----------------------------------------------------------------------

  /** The requests a worker will answer with nil are in the batch or already flushed. */
  ghost predicate AckedKept(s: State) {
    && s.acked <= s.durable + s.batch
    && (!s.open ==> s.batch == {})
    && (s.worker.Responding? && s.worker.ok ==> Ids(s.worker.reqs) <= s.durable + s.batch)
    && (forall reqs :: Busy(s.worker, AfterPut(reqs)) ==> Ids(reqs) <= s.durable + s.batch)
  }

  predicate Busy(w: Worker, c: Cause) {
    (w.Draining? || w.Loading? || w.Flushing? || w.Storing?) && w.cause == c
  }

  /** Positions only grow, and a flusher's position is one that has been requested. */
  ghost predicate Positions(s: State) {
    && s.goodPos <= s.flushPos <= s.flushReq
    && (s.worker.Flushing? || s.worker.Storing? ==> s.flushPos <= s.worker.newPos <= s.flushReq)
    && forall f :: f in s.flushers && !s.flushers[f].GaveUp? ==> s.flushers[f].now <= s.flushReq
  }

  /** What a flusher must see flushed is flushed once a good position has reached it. */
  ghost predicate Covers(s: State) {
    forall f :: f in s.flushers && !s.flushers[f].GaveUp? ==>
      && s.flushers[f].cover <= s.acked
      && (s.flushers[f].now <= s.goodPos ==> s.flushers[f].cover <= s.durable)
      && (s.worker.Storing? && s.worker.ok && s.flushers[f].now <= s.worker.newPos ==> s.flushers[f].cover <= s.durable)
      && (s.flushers[f].Done? ==> s.flushers[f].now <= s.flushPos)
  }

  /** A token is pending, or the worker has taken one and will publish a position that covers it. */
  ghost predicate OnItsWay(s: State, now: nat) {
    || s.token
    || s.worker.Draining? || s.worker.Loading?
    || ((s.worker.Flushing? || s.worker.Storing?) && s.worker.newPos >= now)
  }

  predicate Stopped(w: Worker) { w.Stopping? || w.Exited? }

  ghost predicate NotLost(s: State) {
    forall f :: f in s.flushers && s.flushers[f].Waiting? ==>
      s.flushers[f].now <= s.flushPos || OnItsWay(s, s.flushers[f].now) || Stopped(s.worker)
  }

  ghost predicate Inv(s: State) { AckedKept(s) && Positions(s) && Covers(s) && NotLost(s) }

  lemma {:induction false} InitInv()
    ensures Inv(Init())
  {}

  lemma {:induction false} IdsFirst(rs: seq<Request>)
    requires rs != []
    ensures rs[0].id in Ids(rs) && Ids(rs[1..]) <= Ids(rs)
  {
    assert rs[0] in rs;
    forall x | x in Ids(rs[1..])
      ensures x in Ids(rs)
    {
      var r :| r in rs[1..] && r.id == x;
      assert r in rs;
    }
  }

  lemma {:induction false} StepAcked(s: State, e: Step)
    requires Inv(s) && Enabled(s, e)
    ensures AckedKept(Apply(s, e))
  {
    hide Covers, NotLost, Positions, Ids, Blocks;
    if e.Respond? && s.worker.reqs != [] {
      IdsFirst(s.worker.reqs);
    }
  }

  lemma {:induction false} StepPositions(s: State, e: Step)
    requires Inv(s) && Enabled(s, e)
    ensures Positions(Apply(s, e))
  {
    hide Covers, NotLost, AckedKept, Ids, Blocks;
  }

  lemma {:induction false} StepCovers(s: State, e: Step)
    requires Inv(s) && Enabled(s, e)
    ensures Covers(Apply(s, e))
  {
    hide NotLost, Ids, Blocks;
  }

  lemma {:induction false} StepNotLost(s: State, e: Step)
    requires Inv(s) && Enabled(s, e)
    ensures NotLost(Apply(s, e))
  {
    hide Covers, AckedKept, Ids, Blocks;
  }

  lemma {:induction false} StepInv(s: State, e: Step)
    requires Inv(s) && Enabled(s, e)
    ensures Inv(Apply(s, e))
  {
    hide *;
    StepAcked(s, e);
    StepPositions(s, e);
    StepCovers(s, e);
    StepNotLost(s, e);
    InvParts(Apply(s, e));
  }

  lemma {:induction false} InvParts(s: State)
    ensures AckedKept(s) && Positions(s) && Covers(s) && NotLost(s) ==> Inv(s)
  {}

  /** Every interleaving of putters, flushers and the worker keeps the invariant. */
  lemma {:induction false} RunInv(s: State, run: seq<Step>)
    requires Inv(s) && Valid(s, run)
    ensures Inv(After(s, run))
    decreases |run|
  {
    hide Inv, Enabled, Apply;
    if run != [] {
      StepInv(s, run[0]);
      RunInv(Apply(s, run[0]), run[1..]);
    }
  }

  // ---- what Flush promises ----------------------------------------------------------------

  predicate Fails(e: Step) { e.FlushBatch? && !e.ok }

  ghost predicate NoFailures(run: seq<Step>) { forall i :: 0 <= i < |run| ==> !Fails(run[i]) }

  /** While every flush of a batch succeeds, every published position is a good one. */
  ghost predicate AllGood(s: State) { s.goodPos == s.flushPos && (s.worker.Storing? ==> s.worker.ok) }

  lemma {:induction false} RunAllGood(s: State, run: seq<Step>)
    requires AllGood(s) && Valid(s, run) && NoFailures(run)
    ensures AllGood(After(s, run))
    decreases |run|
  {
    hide Apply, Enabled, AllGood;
    if run != [] {
      assert !Fails(run[0]);
      StepAllGood(s, run[0]);
      RunAllGood(Apply(s, run[0]), run[1..]);
    }
  }

  lemma {:induction false} StepAllGood(s: State, e: Step)
    requires AllGood(s) && Enabled(s, e) && !Fails(e)
    ensures AllGood(Apply(s, e))
  {
    hide Ids, Blocks;
  }

  /** A Flush that returned nil covers every put acknowledged before it began: in any run in which
      the batches' flushes succeed, whatever the interleaving. */
  lemma {:induction false} FlushCovers(run: seq<Step>, f: nat)
    requires Valid(Init(), run) && NoFailures(run)
    requires
      var s := After(Init(), run);
      f in s.flushers && s.flushers[f].Done?
    ensures
      var s := After(Init(), run);
      s.flushers[f].cover <= s.durable
  {
    InitInv();
    RunInv(Init(), run);
    RunAllGood(Init(), run);
    hide Apply, Enabled, Ids, Blocks, AckedKept, NotLost;
  }

  /** With failing flushes the promise holds for the positions that a successful flush reached. */
  lemma {:induction false} GoodPositionCovers(run: seq<Step>, f: nat)
    requires Valid(Init(), run)
    requires
      var s := After(Init(), run);
      f in s.flushers && !s.flushers[f].GaveUp? && s.flushers[f].now <= s.goodPos
    ensures
      var s := After(Init(), run);
      s.flushers[f].cover <= s.durable
  {
    InitInv();
    RunInv(Init(), run);
    hide Apply, Enabled, Ids, Blocks, AckedKept, NotLost;
  }

  /** At the failing branch: the worker is about to flush and a flusher waits for the position it will
      publish. Whether or not the flush succeeds, the flusher then returns nil, and its puts are
      flushed if and only if the flush succeeded, or got as far as those that were not flushed before. */
  lemma {:induction false} FlushTellsTruthIff(run: seq<Step>, f: nat, ok: bool, partial: set<nat>)
    requires Valid(Init(), run)
    requires
      var s := After(Init(), run);
      && s.worker.Flushing? && partial <= s.batch
      && f in s.flushers && s.flushers[f].Waiting? && s.flushers[f].now <= s.worker.newPos
    ensures Valid(Init(), run + [FlushBatch(ok, partial), Store, Return(f)])
    ensures
      var s, t := After(Init(), run), After(Init(), run + [FlushBatch(ok, partial), Store, Return(f)]);
      && f in t.flushers && t.flushers[f] == Done(s.flushers[f].now, s.flushers[f].cover)
      && (s.flushers[f].cover <= t.durable <==> ok || s.flushers[f].cover <= s.durable + partial)
  {
    InitInv();
    RunInv(Init(), run);
    var s := After(Init(), run);
    PublishedAnyway(s, f, ok, partial);
    hide Enabled, Apply, Inv;
    var s1 := Apply(s, FlushBatch(ok, partial));
    var s2 := Apply(s1, Store);
    var last := Prepend(s2, Return(f), []);
    last := Prepend(s1, Store, last);
    last := Prepend(s, FlushBatch(ok, partial), last);
    assert last == [FlushBatch(ok, partial), Store, Return(f)];
    Chain(Init(), run, last);
  }

  lemma {:induction false} PublishedAnyway(s: State, f: nat, ok: bool, partial: set<nat>)
    requires Inv(s) && s.worker.Flushing? && partial <= s.batch
    requires f in s.flushers && s.flushers[f].Waiting? && s.flushers[f].now <= s.worker.newPos
    ensures Enabled(s, FlushBatch(ok, partial)) && Enabled(Apply(s, FlushBatch(ok, partial)), Store)
    ensures
      var s2 := Apply(Apply(s, FlushBatch(ok, partial)), Store);
      && Enabled(s2, Return(f))
      && var t := Apply(s2, Return(f));
         && f in t.flushers && t.flushers[f] == Done(s.flushers[f].now, s.flushers[f].cover)
         && (s.flushers[f].cover <= t.durable <==> ok || s.flushers[f].cover <= s.durable + partial)
  {
    hide Ids, Blocks, NotLost;
  }

  /** What a flusher takes as its cover it keeps. */
  lemma {:induction false} CoverKept(s: State, run: seq<Step>, f: nat)
    requires Valid(s, run) && f in s.flushers
    ensures
      var t := After(s, run);
      && f in t.flushers
      && (!t.flushers[f].GaveUp? ==> !s.flushers[f].GaveUp? && t.flushers[f].cover == s.flushers[f].cover)
    decreases |run|
  {
    hide Apply, Enabled;
    if run != [] {
      StepKeepsCover(s, run[0], f);
      CoverKept(Apply(s, run[0]), run[1..], f);
    }
  }

  lemma {:induction false} StepKeepsCover(s: State, e: Step, f: nat)
    requires Enabled(s, e) && f in s.flushers
    ensures
      var t := Apply(s, e);
      && f in t.flushers
      && (!t.flushers[f].GaveUp? ==> !s.flushers[f].GaveUp? && t.flushers[f].cover == s.flushers[f].cover)
  {
    hide Ids, Blocks;
  }

  /** In terms of the calls alone: when a Flush has returned nil, every put acknowledged before the
      call is flushed, whatever happened before, during and after it, if no flush of a batch failed. */
  lemma {:induction false} FlushCoversEarlierPuts(before: seq<Step>, f: nat, after: seq<Step>)
    requires Valid(Init(), before) && Enabled(After(Init(), before), Begin(f))
    requires Valid(Apply(After(Init(), before), Begin(f)), after)
    requires NoFailures(before) && NoFailures(after)
    requires
      var s := After(Apply(After(Init(), before), Begin(f)), after);
      f in s.flushers && s.flushers[f].Done?
    ensures After(Init(), before).acked <= After(Apply(After(Init(), before), Begin(f)), after).durable
  {
    var s := After(Init(), before);
    var rest := Prepend(s, Begin(f), after);
    Chain(Init(), before, rest);
    CoverKept(Apply(s, Begin(f)), after, f);
    FlushCovers(before + rest, f);
  }

  lemma {:induction false} StepKeeps(s: State, e: Step)
    requires Enabled(s, e)
    ensures s.durable <= Apply(s, e).durable && s.acked <= Apply(s, e).acked
  {
    hide Ids, Blocks;
  }

  /** Flushed data and acknowledgements are never taken back. */
  lemma {:induction false} RunKeeps(s: State, run: seq<Step>)
    requires Valid(s, run)
    ensures s.durable <= After(s, run).durable && s.acked <= After(s, run).acked
    decreases |run|
  {
    hide Enabled, Apply;
    if run != [] {
      StepKeeps(s, run[0]);
      RunKeeps(Apply(s, run[0]), run[1..]);
    }
  }

  lemma {:induction false} Chain(s: State, a: seq<Step>, b: seq<Step>)
    requires Valid(s, a) && Valid(After(s, a), b)
    ensures Valid(s, a + b) && After(s, a + b) == After(After(s, a), b)
    decreases |a|
  {
    hide Enabled, Apply;
    if a == [] {
      assert a + b == b;
    } else {
      Chain(Apply(s, a[0]), a[1..], b);
      assert (a + b)[1..] == a[1..] + b;
    }
  }

  /** One block has been put and acknowledged. */
  function AfterOnePut(): State {
    State([], 0, 0, false, Idle, {7}, true, [Request(7, 1)], 1, {}, {7}, {}, 0, map[])
  }

  /** A flusher waits, and the worker is about to put 10240 more blocks. */
  function SecondPut(): State {
    State([], 1, 0, true, Putting([Request(8, 10240)]), {7}, true, [Request(7, 1)], 1, {}, {7}, {}, 0,
          map[0 := Waiting(1, {7})])
  }

  lemma {:induction false} OneRequest(r: Request)
    ensures Blocks([r]) == r.blocks && Ids([r]) == {r.id}
  {
    assert [r][1..] == [] && Blocks([]) == 0;
    assert r in [r];
    assert forall x :: x in Ids([r]) <==> x == r.id;
  }

  lemma {:induction false} OnePut() returns (run: seq<Step>)
    ensures Valid(Init(), run) && After(Init(), run) == AfterOnePut()
  {
    var a := Request(7, 1);
    OneRequest(a);
    hide Ids, Blocks;
    var s0 := Init();
    var s1 := Apply(s0, Send(a));
    var s2 := Apply(s1, TakePut);
    var s3 := Apply(s2, EndCollect);
    var s4 := Apply(s3, BatchPut(true, {}));
    var s5 := Apply(s4, Respond);
    run := Prepend(s5, Respond, []);
    run := Prepend(s4, Respond, run);
    run := Prepend(s3, BatchPut(true, {}), run);
    run := Prepend(s2, EndCollect, run);
    run := Prepend(s1, TakePut, run);
    run := Prepend(s0, Send(a), run);
  }

  lemma {:induction false} FlushAndPut() returns (run: seq<Step>)
    ensures Valid(AfterOnePut(), run) && After(AfterOnePut(), run) == SecondPut()
  {
    var b := Request(8, 10240);
    hide Ids, Blocks;
    var s6 := AfterOnePut();
    var s7 := Apply(s6, Begin(0));
    var s8 := Apply(s7, Offer(0));
    var s9 := Apply(s8, Send(b));
    var s10 := Apply(s9, TakePut);
    run := Prepend(s10, EndCollect, []);
    run := Prepend(s9, TakePut, run);
    run := Prepend(s8, Send(b), run);
    run := Prepend(s7, Offer(0), run);
    run := Prepend(s6, Begin(0), run);
  }

  lemma {:induction false} FlushFails() returns (run: seq<Step>)
    ensures Valid(SecondPut(), run) && FlushBatch(false, {}) in run
    ensures
      var s := After(SecondPut(), run);
      && 0 in s.flushers && s.flushers[0] == Done(1, {7})
      && s.durable == {} && 7 in s.batch
  {
    var b := Request(8, 10240);
    OneRequest(b);
    hide Ids, Blocks;
    var s11 := SecondPut();
    var s12 := Apply(s11, BatchPut(true, {}));
    var s13 := Apply(s12, Drain);
    var s14 := Apply(s13, Load);
    var s15 := Apply(s14, FlushBatch(false, {}));
    var s16 := Apply(s15, Store);
    run := Prepend(s16, Return(0), []);
    run := Prepend(s15, Store, run);
    run := Prepend(s14, FlushBatch(false, {}), run);
    run := Prepend(s13, Load, run);
    run := Prepend(s12, Drain, run);
    run := Prepend(s11, BatchPut(true, {}), run);
  }

  /** The witness: flushPos moves on even when the flush fails. Here Flush returns nil and the put it should
      cover is still only in the batch. */
  lemma {:induction false} FailedFlushLies() returns (run: seq<Step>)
    ensures Valid(Init(), run) && !NoFailures(run)
    ensures
      var s := After(Init(), run);
      && 0 in s.flushers && s.flushers[0] == Done(1, {7})
      && s.durable == {} && 7 in s.batch
  {
    hide Enabled, Apply;
    var a := OnePut();
    var b := FlushAndPut();
    var c := FlushFails();
    Chain(Init(), a, b);
    Chain(Init(), a + b, c);
    run := a + b + c;
    var i :| 0 <= i < |c| && c[i] == FlushBatch(false, {});
    assert run[|a + b| + i] == FlushBatch(false, {});
  }

  lemma {:induction false} Prepend(s: State, e: Step, rest: seq<Step>) returns (run: seq<Step>)
    requires Enabled(s, e) && Valid(Apply(s, e), rest)
    ensures run == [e] + rest && Valid(s, run) && After(s, run) == After(Apply(s, e), rest)
  {
    hide Enabled, Apply;
    run := [e] + rest;
    assert run[1..] == rest;
  }

  // ---- no flusher waits in vain ----------------------------------------------------------

  /** How many worker steps separate a state from publishing a position of at least now. */
  ghost function Distance(s: State, now: nat): nat {
    match s.worker
    case Idle => 5
    case Collecting(reqs) => 8 + |reqs| + 2 * |s.puts|
    case Putting(reqs) => 7 + |reqs|
    case Draining(_) => 4
    case Loading(_) => 3
    case Flushing(c, p) => if p >= now then 2 else 8 + |CauseReqs(c)|
    case Storing(c, p, _) => if p >= now then 1 else 7 + |CauseReqs(c)|
    case Responding(reqs, _) => 6 + |reqs|
    case Stopping => 0
    case Exited => 0
  }

  ghost function WorkerStep(s: State): Step {
    match s.worker
    case Collecting(reqs) =>
      if s.puts == [] || Enough(reqs) then EndCollect else TakeMore
    case Putting(_) => BatchPut(true, {})
    case Draining(_) => Drain
    case Loading(_) => Load
    case Flushing(_, _) => FlushBatch(true, {})
    case Storing(_, _, _) => Store
    case Responding(_, _) => Respond
    case _ => TakeToken
  }

  predicate ByWorker(e: Step) { !e.Send? && !e.Begin? && !e.Offer? && !e.Return? && !e.GiveUp? && !e.Exit? }

  lemma {:induction false} WorkerMoves(s: State, f: nat)
    requires Inv(s) && f in s.flushers && s.flushers[f].Waiting? && s.flushers[f].now > s.flushPos
    requires !Stopped(s.worker) && (s.worker.Storing? && s.worker.cause.Token? ==> s.worker.ok)
    ensures
      var e, now := WorkerStep(s), s.flushers[f].now;
      && Enabled(s, e) && ByWorker(e) && !Fails(e)
      && var t := Apply(s, e);
         && t.flushers == s.flushers && !Stopped(t.worker)
         && (t.worker.Storing? && t.worker.cause.Token? ==> t.worker.ok)
         && (t.flushPos < now ==> Distance(t, now) < Distance(s, now))
  {
    hide Ids, AckedKept, Covers;
  }

  /** Wherever the worker is, its own steps bring it to a position that covers a waiting flusher:
      no request is lost, however tokens were merged or consumed. */
  lemma {:induction false} FlusherServed(s: State, f: nat) returns (run: seq<Step>)
    requires Inv(s) && f in s.flushers && s.flushers[f].Waiting?
    requires !Stopped(s.worker) && (s.worker.Storing? && s.worker.cause.Token? ==> s.worker.ok)
    ensures Valid(s, run) && NoFailures(run) && (forall i :: 0 <= i < |run| ==> ByWorker(run[i]))
    ensures After(s, run).flushers == s.flushers && Enabled(After(s, run), Return(f))
    decreases if s.flushPos >= s.flushers[f].now then 0 else 1 + Distance(s, s.flushers[f].now)
  {
    hide Inv, Apply, Distance, WorkerStep, Ids, Blocks, ByWorker;
    if s.flushPos >= s.flushers[f].now {
      run := [];
    } else {
      WorkerMoves(s, f);
      StepInv(s, WorkerStep(s));
      var rest := FlusherServed(Apply(s, WorkerStep(s)), f);
      run := Prepend(s, WorkerStep(s), rest);
    }
  }

  // ---- every put is answered ----------------------------------------------------------------

  function CauseReqs(c: Cause): seq<Request> { if c.Token? then [] else c.reqs }

  /** The requests that the worker has taken and not answered yet. */
  function Held(w: Worker): seq<Request> {
    match w
    case Collecting(reqs) => reqs
    case Putting(reqs) => reqs
    case Draining(c) => CauseReqs(c)
    case Loading(c) => CauseReqs(c)
    case Flushing(c, _) => CauseReqs(c)
    case Storing(c, _, _) => CauseReqs(c)
    case Responding(reqs, _) => reqs
    case _ => []
  }

  ghost function Pending(s: State): multiset<Request> { multiset(s.puts) + multiset(Held(s.worker)) }

  /** The request that a step answers. */
  ghost function Answering(s: State, e: Step): multiset<Request>
    requires Enabled(s, e)
  {
    if e.Respond? && s.worker.reqs != [] then multiset{s.worker.reqs[0]} else multiset{}
  }

  /** Where the requests go. */
  lemma {:induction false} StepRequests(s: State, e: Step)
    requires Enabled(s, e)
    ensures
      var t := Apply(s, e);
      var was, held := Held(s.worker), Held(t.worker);
      match e
      case Send(r) => t.puts == s.puts + [r] && held == was
      case TakePut => s.puts != [] && t.puts == s.puts[1..] && was == [] && held == [s.puts[0]]
      case TakeMore => s.puts != [] && t.puts == s.puts[1..] && held == was + [s.puts[0]]
      case Respond => t.puts == s.puts && was == s.worker.reqs && held == if was == [] then [] else was[1..]
      case _ => t.puts == s.puts && held == was
  {
    hide Ids, Blocks;
  }

  /** No step takes a request from queue and worker without answering it, or adds one that was not sent. */
  lemma {:induction false} StepConserves(s: State, e: Step)
    requires Enabled(s, e)
    ensures Pending(Apply(s, e)) + Answering(s, e) == Pending(s) + if e.Send? then multiset{e.r} else multiset{}
    ensures forall r :: r in Answering(s, e) ==>
              r.id in if s.worker.ok then Apply(s, e).acked else Apply(s, e).failed
  {
    StepRequests(s, e);
    StepAnswers(s, e);
    if e.TakePut? || e.TakeMore? {
      FirstOf(s.puts);
    } else if e.Respond? && s.worker.reqs != [] {
      FirstOf(s.worker.reqs);
    }
    hide Apply, Enabled, Held;
  }

  lemma {:induction false} StepAnswers(s: State, e: Step)
    requires Enabled(s, e)
    ensures forall r :: r in Answering(s, e) ==>
              r.id in if s.worker.ok then Apply(s, e).acked else Apply(s, e).failed
  {
    hide Ids, Blocks;
  }

  lemma {:induction false} FirstOf(rs: seq<Request>)
    requires rs != []
    ensures multiset(rs) == multiset{rs[0]} + multiset(rs[1..])
  {
    assert rs == [rs[0]] + rs[1..];
  }

  /** What the worker does next about its requests. */
  ghost function PutStep(s: State): Step { if s.worker.Idle? then TakePut else WorkerStep(s) }

  /** How many worker steps are left at most until every request is answered. */
  ghost function Work(s: State): nat {
    12 * |s.puts| +
    match s.worker
    case Collecting(reqs) => 8 + |reqs|
    case Putting(reqs) => 7 + |reqs|
    case Draining(c) => 6 + |CauseReqs(c)|
    case Loading(c) => 5 + |CauseReqs(c)|
    case Flushing(c, _) => 4 + |CauseReqs(c)|
    case Storing(c, _, _) => 3 + |CauseReqs(c)|
    case Responding(reqs, _) => 1 + |reqs|
    case _ => 0
  }

  /** Its batch has not been put, or not been flushed in time: the answer will be an error. */
  ghost predicate Doomed(s: State, r: Request) {
    || (s.worker.Responding? && !s.worker.ok && r in s.worker.reqs)
    || (s.worker.Storing? && !s.worker.ok && r in CauseReqs(s.worker.cause))
  }

  ghost predicate Working(s: State) {
    !Stopped(s.worker) && (s.worker.Storing? && s.worker.cause.Token? ==> s.worker.ok)
  }

  predicate Succeeds(e: Step) { !Fails(e) && (e.BatchPut? ==> e.ok) }

  lemma {:induction false} PutMoves(s: State, r: Request)
    requires Working(s) && r in Pending(s)
    ensures
      var e := PutStep(s);
      && Enabled(s, e) && ByWorker(e) && Succeeds(e)
      && Working(Apply(s, e)) && Work(Apply(s, e)) < Work(s)
  {
    hide Ids, Blocks;
    if s.puts == [] {
      assert r in Held(s.worker);
    }
  }

  lemma {:induction false} NotDoomed(s: State, e: Step, r: Request)
    requires Enabled(s, e) && Succeeds(e) && ByWorker(e) && !Doomed(s, r)
    ensures !Doomed(Apply(s, e), r)
    ensures r in Answering(s, e) ==> s.worker.ok
  {
    hide Ids, Blocks;
    if e.Respond? && s.worker.reqs != [] {
      assert forall x :: x in s.worker.reqs[1..] ==> x in s.worker.reqs;
    }
  }

  /** From wherever the worker is, its own steps answer a request that is queued or that it holds, and answer
      it with nil unless its batch put or flush has failed already. */
  lemma {:induction false} PutServed(s: State, r: Request) returns (run: seq<Step>)
    requires Working(s) && r in Pending(s)
    ensures Valid(s, run) && forall i :: 0 <= i < |run| ==> ByWorker(run[i]) && Succeeds(run[i])
    ensures
      var t := After(s, run);
      && (r.id in t.acked || r.id in t.failed)
      && (!Doomed(s, r) ==> r.id in t.acked)
    decreases Work(s)
  {
    hide Apply, PutStep, Work, Enabled, Pending, Answering, Doomed, Working, ByWorker, Succeeds;
    var e := PutStep(s);
    PutMoves(s, r);
    StepConserves(s, e);
    OwnStep(e);
    if !Doomed(s, r) {
      NotDoomed(s, e, r);
    }
    if r in Answering(s, e) {
      run := Prepend(s, e, []);
    } else {
      assert r in Pending(Apply(s, e)) + Answering(s, e);
      var rest := PutServed(Apply(s, e), r);
      run := Prepend(s, e, rest);
    }
  }

  lemma {:induction false} OwnStep(e: Step)
    requires ByWorker(e)
    ensures !e.Send?
  {}

  /** When the final flush of a stopping worker succeeds, all that has ever been acknowledged is flushed. */
  lemma {:induction false} FinalFlushCovers(run: seq<Step>)
    requires Valid(Init(), run) && After(Init(), run).worker.Stopping?
    ensures
      var t := Apply(After(Init(), run), FinalFlush(true, {}));
      t.worker == Exited && t.acked <= t.durable
  {
    InitInv();
    RunInv(Init(), run);
    hide Ids, Blocks, Covers, NotLost, Positions;
  }

  /** After a failed token flush the worker takes nothing any more: no put is acknowledged by a worker that
      could not flush. */
  lemma {:induction false} NothingAfterFailure(s: State, run: seq<Step>)
    requires Stopped(s.worker) || (s.worker.Storing? && s.worker.cause.Token? && !s.worker.ok)
    requires Valid(s, run)
    ensures After(s, run).acked == s.acked && Pending(s) <= Pending(After(s, run))
    decreases |run|
  {
    hide Apply, Enabled, Pending;
    if run != [] {
      NoneTaken(s, run[0]);
      NothingAfterFailure(Apply(s, run[0]), run[1..]);
    }
  }

  lemma {:induction false} NoneTaken(s: State, e: Step)
    requires Stopped(s.worker) || (s.worker.Storing? && s.worker.cause.Token? && !s.worker.ok)
    requires Enabled(s, e)
    ensures Apply(s, e).acked == s.acked && Pending(s) <= Pending(Apply(s, e))
    ensures
      var w := Apply(s, e).worker;
      Stopped(w) || (w.Storing? && w.cause.Token? && !w.ok)
  {
    StaysFailed(s, e);
    StepConserves(s, e);
    hide Apply, Pending;
  }

  lemma {:induction false} StaysFailed(s: State, e: Step)
    requires Stopped(s.worker) || (s.worker.Storing? && s.worker.cause.Token? && !s.worker.ok)
    requires Enabled(s, e)
    ensures Apply(s, e).acked == s.acked && !e.Respond?
    ensures
      var w := Apply(s, e).worker;
      Stopped(w) || (w.Storing? && w.cause.Token? && !w.ok)
  {
    hide Ids, Blocks;
  }

  // ---- what is left unflushed ---------------------------------------------------------------

  lemma {:induction false} BlocksConcat(a: seq<Request>, b: seq<Request>)
    ensures Blocks(a + b) == Blocks(a) + Blocks(b)
  {
    if a == [] {
      assert a + b == b;
    } else {
      BlocksConcat(a[1..], b);
      assert (a + b)[1..] == a[1..] + b;
    }
  }

  /** The counter counts the batch, and a batch over the limit is on its way to be flushed. */
  ghost predicate Bounded(s: State) {
    && s.unflushed == Blocks(s.batched) && (!s.open ==> s.batched == [])
    && (Blocks(s.batched) > MAX_UNFLUSHED_BLOCKS ==> s.worker.Draining? || s.worker.Loading? || s.worker.Flushing?)
  }

  lemma {:induction false} StepBounded(s: State, e: Step)
    requires Bounded(s) && Enabled(s, e) && !Fails(e)
    ensures Bounded(Apply(s, e))
  {
    hide Ids, Blocks;
    NoBlocks();
    if e.BatchPut? {
      BlocksConcat(s.batched, s.worker.reqs);
    }
  }

  lemma {:induction false} NoBlocks()
    ensures Blocks([]) == 0
  {}

  /** While flushes succeed, the worker takes no request as long as more than the allowed number of blocks is
      unflushed. */
  lemma {:induction false} RunBounded(s: State, run: seq<Step>)
    requires Bounded(s) && Valid(s, run) && NoFailures(run)
    ensures Bounded(After(s, run))
    decreases |run|
  {
    hide Apply, Enabled, Bounded;
    if run != [] {
      assert !Fails(run[0]);
      StepBounded(s, run[0]);
      RunBounded(Apply(s, run[0]), run[1..]);
    }
  }

  // ---- how much is collected ----------------------------------------------------------------

  /** Once a second request has been taken, none is taken on top of more than the allowed number of blocks. */
  ghost predicate Collected(s: State) {
    s.worker.Collecting? || s.worker.Putting? ==>
      var reqs := s.worker.reqs;
      reqs != [] && (|reqs| <= 2 || Blocks(reqs[..|reqs| - 1]) <= MAX_QUEUED_BLOCKS)
  }

  lemma {:induction false} StepCollected(s: State, e: Step)
    requires Collected(s) && Enabled(s, e)
    ensures Collected(Apply(s, e))
  {
    hide Ids, Blocks;
    if e.TakeMore? {
      var reqs := s.worker.reqs;
      assert (reqs + [s.puts[0]])[..|reqs|] == reqs;
    }
  }

  lemma {:induction false} RunCollected(s: State, run: seq<Step>)
    requires Collected(s) && Valid(s, run)
    ensures Collected(After(s, run))
    decreases |run|
  {
    hide Apply, Enabled, Collected;
    if run != [] {
      StepCollected(s, run[0]);
      RunCollected(Apply(s, run[0]), run[1..]);
    }
  }

  /** Both limits hold in every run from the start, the second one while no flush of a batch fails. */
  lemma {:induction false} LimitsHold(run: seq<Step>)
    requires Valid(Init(), run)
    ensures Collected(After(Init(), run))
    ensures NoFailures(run) ==> Bounded(After(Init(), run))
  {
    NoBlocks();
    RunCollected(Init(), run);
    if NoFailures(run) {
      RunBounded(Init(), run);
    }
  }
}
