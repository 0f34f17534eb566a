/** When what a state remembers shows, and when two states that remember different accounts execute the same block. */
module MemoryLaws {
  import opened Types
  import opened Accounts
  import opened Memory
  import opened Vm
  import opened Execution
  import opened ExecutionLaws
  import opened Recall
  import Tx = Transaction
  import TransactionLaws
  import Spec = BlockSpec
  import Journal

  // ---------------------------------------------------------------------------------------
  // Creations ask first

  /** The addresses that contracts are created at, in all the frames of some requests. */
  function Creations(rs: seq<Request>): set<Address>
    decreases rs
  {
    if rs == [] then {} else Creations(rs[..|rs| - 1]) + RequestCreations(rs[|rs| - 1])
  }

  function RequestCreations(r: Request): set<Address>
    decreases r, 0
  {
    match r
    case CallOut(_, _, _, _, _, child) => Creations(child.requests)
    case CreateOut(address, _, _, child) => {address} + Creations(child.requests)
    case _ => {}
  }

  /** The addresses that a transaction creates contracts at. */
  function CreationsOf(t: Tx.Transaction, frame: Frame): set<Address> {
    Creations(frame.requests) + if t.action.CreateContract? then {t.action.address} else {}
  }

  /** Accounts are replaced only at addresses of `places`, and each is asked for before. */
  ghost predicate Foreseen(trail: seq<Event>, places: set<Address>) {
    forall i :: 0 <= i < |trail| && trail[i].Replaced? ==>
                  trail[i].address in places && Asked(trail[i].address) in trail[..i]
  }

  lemma ForeseenJoined(x: seq<Event>, y: seq<Event>, places: set<Address>)
    requires Foreseen(x, places) && Foreseen(y, places)
    ensures Foreseen(x + y, places)
  {
    var z := x + y;
    forall i | 0 <= i < |z| && z[i].Replaced? ensures z[i].address in places && Asked(z[i].address) in z[..i] {
      if i < |x| {
        assert z[..i] == x[..i] && z[i] == x[i];
      } else {
        assert z[..i] == x + y[..i - |x|] && z[i] == y[i - |x|];
      }
    }
  }

  lemma NothingReplaced(trail: seq<Event>, places: set<Address>)
    requires forall i :: 0 <= i < |trail| ==> !trail[i].Replaced?
    ensures Foreseen(trail, places)
  {
  }

  lemma {:induction false} CallForeseen(env: Env, depth: nat, isStatic: bool, w: World, sub: Substate, p: Params,
                                        b: BuiltinRun, frame: Frame, places: set<Address>)
    requires p.value.Moved? ==> p.value.amount <= Balance(w, p.sender)
    requires Creations(frame.requests) <= places
    ensures Foreseen(CallRun(env, depth, isStatic, w, sub, p, b, frame).trail, places)
    decreases frame, 3
  {
    if !MovesInStatic(isStatic, p) {
      var run := PaidCall(env, depth, isStatic, w, Paid(env, w, p), PaidSub(env, w, sub, p), p, b, frame);
      if p.codeAddress !in env.builtins && p.hasCode {
        EnactedForeseen(env, depth, isStatic, w, Paid(env, w, p), PaidSub(env, w, sub, p), p, frame, false, places);
      }
      assert Foreseen(run.trail, places);
      ForeseenJoined([Entered] + PaidTrail(env, w, p), run.trail, places);
    }
  }

  lemma {:induction false} CreateForeseen(env: Env, depth: nat, isStatic: bool, w: World, sub: Substate, p: Params,
                                          frame: Frame, places: set<Address>)
    requires p.value.Moved? ==> p.value.amount <= Balance(w, p.sender)
    requires Creations(frame.requests) + {p.address} <= places
    ensures Foreseen(CreateRun(env, depth, isStatic, w, sub, p, frame).trail, places)
    decreases frame, 3
  {
    if !HasCodeOrNonce(w, p.address, env.startNonce) && !p.callType.StaticCall? && !isStatic {
      var start, paid := [Asked(p.address), Entered, Asked(p.address)], EndowedTrail(w, p);
      EnactedForeseen(env, depth, isStatic, w, Endowed(env, w, p), EndowedSub(env, sub, p), p, frame, true, places);
      assert (start + paid)[0] == Asked(p.address);
      var run := EnactedOf(env, depth, isStatic, w, Endowed(env, w, p), EndowedSub(env, sub, p), p, frame, true);
      ForeseenJoined(start + paid, run.trail, places);
    }
  }

  lemma {:induction false} EnactedForeseen(env: Env, depth: nat, isStatic: bool, before: World, w: World,
                                           sub: Substate, p: Params, frame: Frame, init: bool, places: set<Address>)
    requires Creations(frame.requests) <= places
    ensures Foreseen(EnactedOf(env, depth, isStatic, before, w, sub, p, frame, init).trail, places)
    decreases frame, 2
  {
    var ctx := Context(p.address, p.sender, depth, isStatic || p.callType.StaticCall?);
    var s := Requests(env, ctx, Progress(w, EmptySubstate, 0, []), frame.requests);
    RequestsForeseen(env, ctx, Progress(w, EmptySubstate, 0, []), frame.requests, places);
    var (inner, result) := Settled(env, ctx, s, frame.outcome, init);
    ForeseenJoined(s.trail, [Fetched(ctx.address)], places);
    assert Foreseen(inner.trail, places);
    ForeseenJoined(inner.trail, [Left], places);
    ForeseenJoined(inner.trail, [Undone], places);
  }

  lemma {:induction false} RequestsForeseen(env: Env, ctx: Context, s: Progress, rs: seq<Request>, places: set<Address>)
    requires Foreseen(s.trail, places) && Creations(rs) <= places
    ensures Foreseen(Requests(env, ctx, s, rs).trail, places)
    decreases rs
  {
    if rs != [] {
      var last := |rs| - 1;
      RequestsForeseen(env, ctx, s, rs[..last], places);
      RequestForeseen(env, ctx, Requests(env, ctx, s, rs[..last]), rs[last], places);
    }
  }

  lemma {:induction false} RequestForeseen(env: Env, ctx: Context, s: Progress, r: Request, places: set<Address>)
    requires Foreseen(s.trail, places) && RequestCreations(r) <= places
    ensures Foreseen(Requested(env, ctx, s, r).trail, places)
    decreases r, 0
  {
    match r
    case PutStorage(key, value) => ForeseenJoined(s.trail, StorageTrail(s.world, ctx.address, key, value), places);
    case SelfDestruct(refund) => DestructedForeseen(env, ctx, s, refund, places);
    case Look(a) => ForeseenJoined(s.trail, [Asked(a)], places);
    case CallOut(kind, target, amount, gas, builtin, child) =>
      CallOutForeseen(env, ctx, s, kind, target, amount, gas, builtin, child, places);
    case CreateOut(address, amount, gas, child) =>
      CreateOutForeseen(env, ctx, s, address, amount, gas, child, places);
    case _ =>
  }

  lemma {:induction false} CallOutForeseen(env: Env, ctx: Context, s: Progress, kind: CallType, target: Address,
                                           amount: nat, gas: nat, builtin: BuiltinRun, child: Frame,
                                           places: set<Address>)
    requires Foreseen(s.trail, places) && Creations(child.requests) <= places
    ensures Foreseen(Requested(env, ctx, s, CallOut(kind, target, amount, gas, builtin, child)).trail, places)
    decreases child, 4
  {
    ForeseenJoined(s.trail, [Asked(ctx.address)], places);
    if CanCall(env, ctx, s.world, kind, amount) {
      var p := CallParams(ctx, s.world, kind, target, amount, gas);
      CallForeseen(env, ctx.depth + 1, ctx.isStatic, s.world, s.sub, p, builtin, child, places);
      TwiceJoined(s.trail, [Asked(ctx.address), Asked(target)],
                  CallRun(env, ctx.depth + 1, ctx.isStatic, s.world, s.sub, p, builtin, child).trail, places);
    }
  }

  lemma {:induction false} CreateOutForeseen(env: Env, ctx: Context, s: Progress, address: Address, amount: nat,
                                             gas: nat, child: Frame, places: set<Address>)
    requires Foreseen(s.trail, places) && {address} + Creations(child.requests) <= places
    ensures Foreseen(Requested(env, ctx, s, CreateOut(address, amount, gas, child)).trail, places)
    decreases child, 4
  {
    ForeseenJoined(s.trail, [Asked(ctx.address)], places);
    if amount <= Balance(s.world, ctx.address) && ctx.depth < env.schedule.maxDepth {
      var w := Announced(env, ctx, s.world);
      var p := Params(address, address, ctx.address, gas, Moved(amount), true, NoCall);
      CreateForeseen(env, ctx.depth + 1, ctx.isStatic, w, s.sub, p, child, places);
      TwiceJoined(s.trail + [Asked(ctx.address)], AnnouncedTrail(env, ctx),
                  CreateRun(env, ctx.depth + 1, ctx.isStatic, w, s.sub, p, child).trail, places);
    }
  }

  lemma TwiceJoined(x: seq<Event>, y: seq<Event>, z: seq<Event>, places: set<Address>)
    requires Foreseen(x, places) && Foreseen(z, places) && forall i :: 0 <= i < |y| ==> !y[i].Replaced?
    ensures Foreseen(x + y + z, places)
  {
    NothingReplaced(y, places);
    ForeseenJoined(x, y, places);
    ForeseenJoined(x + y, z, places);
  }

  lemma DestructedForeseen(env: Env, ctx: Context, s: Progress, refund: Address, places: set<Address>)
    requires Foreseen(s.trail, places)
    ensures Foreseen(Destructed(env, ctx, s, refund).trail, places)
  {
    var balance, mode := Balance(s.world, ctx.address), Mode(env.schedule);
    ForeseenJoined(s.trail, [Asked(ctx.address)], places);
    ForeseenJoined(s.trail + [Asked(ctx.address)], SubTrail(s.world, ctx.address, balance), places);
    ForeseenJoined(s.trail + [Asked(ctx.address)],
                   TransferTrail(s.world, ctx.address, refund, balance, mode, env.startNonce), places);
  }

  /** So it is for a whole transaction. */
  lemma TrailForeseen(env: Env, info: Tx.BlockInfo, w: World, t: Tx.Transaction, o: Tx.Oracle, places: set<Address>)
    requires Tx.BaseGas(env.schedule, t) <= t.gas && t.value + t.gas * t.gasPrice <= Balance(w, t.sender)
    requires Tx.GasLeft(Tx.OuterRun(env, w, t, o).result) <= t.gas
    requires CreationsOf(t, o.frame) <= places
    ensures Foreseen(Tx.TrailAtEnd(env, info, w, t, Tx.OuterRun(env, w, t, o)), places)
  {
    var run := Tx.OuterRun(env, w, t, o);
    OuterForeseen(env, Tx.Prepaid(env, w, t), Tx.PrepaidSub(env, t), t, o.builtin, o.frame, places);
    PrepaidUnreplaced(env, w, t);
    var used := Tx.ChargedGas(env.schedule, t, run);
    BetweenJoined([Asked(t.sender)] + Tx.PrepaidTrail(env, w, t), run.trail,
                  Tx.PaidBackTrail(env, run.world, t.sender, Tx.RefundValue(t, used), info.author,
                                   Tx.FeesValue(t, used)), places);
  }

  lemma PrepaidUnreplaced(env: Env, w: World, t: Tx.Transaction)
    ensures var trail := [Asked(t.sender)] + Tx.PrepaidTrail(env, w, t);
            forall i :: 0 <= i < |trail| ==> !trail[i].Replaced?
  {
  }

  lemma BetweenJoined(x: seq<Event>, y: seq<Event>, z: seq<Event>, places: set<Address>)
    requires forall i :: 0 <= i < |x| ==> !x[i].Replaced?
    requires forall i :: 0 <= i < |z| ==> !z[i].Replaced?
    requires Foreseen(y, places)
    ensures Foreseen(x + y + z, places)
  {
    NothingReplaced(x, places);
    NothingReplaced(z, places);
    ForeseenJoined(x, y, places);
    ForeseenJoined(x + y, z, places);
  }

  lemma OuterForeseen(env: Env, w: World, sub: Substate, t: Tx.Transaction, b: BuiltinRun, frame: Frame,
                      places: set<Address>)
    requires Tx.BaseGas(env.schedule, t) <= t.gas && t.value <= Balance(w, t.sender)
    requires CreationsOf(t, frame) <= places
    ensures Foreseen(Tx.OuterFrame(env, w, sub, t, b, frame).trail, places)
  {
    var p := Tx.OuterParams(env, w, t);
    if t.action.CreateContract? {
      CreateForeseen(env, 0, false, w, sub, p, frame, places);
    } else {
      CallForeseen(env, 0, false, w, sub, p, b, frame, places);
      ForeseenJoined([Asked(t.action.to)], CallRun(env, 0, false, w, sub, p, b, frame).trail, places);
    }
  }

  // ---------------------------------------------------------------------------------------
  // Two states with the same first balances

  /** An address that is loaded as soon as it is asked for. */
  predicate Sure(r: Reader, loaded: set<Address>, a: Address) {
    a in loaded || a !in r.hits
  }

  /** The two states first saw the same balances, and each of `places` is sure to be loaded when asked for. */
  ghost predicate Agree(r: Reader, olds: Olds, r': Reader, olds': Olds, places: set<Address>) {
    && (forall a :: SeenAt(r.base, olds, a) == SeenAt(r'.base, olds', a))
    && (forall a :: a in places ==> Sure(r, olds.Keys, a) && Sure(r', olds'.Keys, a))
  }

  /** Undoing drops nothing. */
  ghost predicate AllStay(m: Recollection) {
    m.olds.Keys == m.level.Keys && forall a :: a in m.level ==> m.level[a] == 0
  }

  /** Agreement part-way through a run: what of `places` was asked for is loaded, and all that is loaded stays so. */
  ghost predicate Alike(r: Reader, m: Recollection, r': Reader, m': Recollection, places: set<Address>,
                        trail: seq<Event>)
  {
    && m.depth == m'.depth && AllStay(m) && AllStay(m')
    && Agree(r, m.olds, r', m'.olds, places)
    && (forall a :: a in places && Asked(a) in trail ==> a in m.level && a in m'.level)
  }

  lemma ToldAlike(r: Reader, m: Recollection, r': Reader, m': Recollection, places: set<Address>, trail: seq<Event>,
                  e: Event)
    requires Alike(r, m, r', m', places, trail)
    requires e.Replaced? ==> e.address in places && Asked(e.address) in trail
    ensures Alike(r, Told(r, m, e), r', Told(r', m', e), places, trail + [e])
  {
    ToldStays(r, m, e);
    ToldStays(r', m', e);
    ToldSeen(r, m, r', m', places, trail, e);
    var n, n' := Told(r, m, e), Told(r', m', e);
    forall a | a in places && Asked(a) in trail + [e] ensures a in n.level && a in n'.level {
      assert Sure(r, m.olds.Keys, a) && Sure(r', m'.olds.Keys, a);
    }
  }

  /** All that is loaded stays so, unless something is replaced that was not. */
  lemma ToldStays(r: Reader, m: Recollection, e: Event)
    requires AllStay(m) && (e.Replaced? ==> e.address in m.level)
    ensures AllStay(Told(r, m, e)) && m.level.Keys <= Told(r, m, e).level.Keys
  {
  }

  lemma ToldSeen(r: Reader, m: Recollection, r': Reader, m': Recollection, places: set<Address>, trail: seq<Event>,
                 e: Event)
    requires Alike(r, m, r', m', places, trail)
    requires e.Replaced? ==> e.address in places && Asked(e.address) in trail
    ensures forall a :: SeenAt(r.base, Told(r, m, e).olds, a) == SeenAt(r'.base, Told(r', m', e).olds, a)
  {
    var n, n' := Told(r, m, e), Told(r', m', e);
    forall a ensures SeenAt(r.base, n.olds, a) == SeenAt(r'.base, n'.olds, a) {
      assert SeenAt(r.base, m.olds, a) == SeenAt(r'.base, m'.olds, a);
    }
  }

  lemma {:induction false} ReplayAlike(r: Reader, m: Recollection, r': Reader, m': Recollection, places: set<Address>,
                                       trail: seq<Event>)
    requires Alike(r, m, r', m', places, []) && Foreseen(trail, places)
    ensures Alike(r, Replay(r, m, trail), r', Replay(r', m', trail), places, trail)
    decreases |trail|
  {
    if trail != [] {
      var last := |trail| - 1;
      var earlier := trail[..last];
      assert trail == earlier + [trail[last]];
      forall i | 0 <= i < last && earlier[i].Replaced?
        ensures earlier[i].address in places && Asked(earlier[i].address) in earlier[..i]
      {
        assert earlier[..i] == trail[..i] && earlier[i] == trail[i];
      }
      ReplayAlike(r, m, r', m', places, earlier);
      ReplayOne(r, m, earlier, trail[last]);
      ReplayOne(r', m', earlier, trail[last]);
      ToldAlike(r, Replay(r, m, earlier), r', Replay(r', m', earlier), places, earlier, trail[last]);
    }
  }

  lemma SameSeen(base: World, olds: Olds, base': World, olds': Olds)
    requires forall a :: SeenAt(base, olds, a) == SeenAt(base', olds', a)
    ensures SeenIn(base, olds) == SeenIn(base', olds')
  {
    var m, m' := SeenIn(base, olds), SeenIn(base', olds');
    forall a ensures Get(m, a) == Get(m', a) {
      assert SeenAt(base, olds, a) == SeenAt(base', olds', a);
    }
    forall a ensures a in m <==> a in m' {
      assert Get(m, a) == Get(m', a);
    }
    forall a | a in m ensures m[a] == m'[a] {
      assert Get(m, a) == Get(m', a);
    }
  }

  /** `places` has the addresses that a job creates at, and its sender unless the sender's nonce rises. */
  predicate Covers(env: Env, job: Job, places: set<Address>) {
    CreationsOf(job.t, job.frame) <= places && (Tx.RaisesNonce(env, job.t) || job.t.sender in places)
  }

  /** Then a push goes by the same on both states, and they still agree after it. */
  lemma SameRecalled(env: Env, r: Reader, olds: Olds, r': Reader, olds': Olds, b: Spec.Block, job: Job,
                     places: set<Address>)
    requires JobFits(env, job) && Covers(env, job, places) && Agree(r, olds, r', olds', places)
    ensures Recalled(env, r, olds, b, job) == Recalled(env, r', olds', b, job)
    ensures Agree(r, OldsAfter(env, r, olds, b, job), r', OldsAfter(env, r', olds', b, job), places)
  {
    var t := job.t;
    if t.hash !in b.seen {
      if Spec.Rejected(env, b, t) {
        ReplayAlike(r, Between(olds), r', Between(olds'), places, [Asked(t.sender)]);
      } else {
        SameEnd(env, r, olds, r', olds', b, job, places);
        ForgottenAgree(r, EndOf(env, r, olds, b, job), r', EndOf(env, r', olds', b, job), places,
                       Tx.RemovedAtEnd(env, Spec.InfoOf(b), t, RunOf(env, b, job), Recalled(env, r, olds, b, job)));
      }
    }
  }

  /** What is remembered when the removals of a push begin. */
  function EndOf(env: Env, r: Reader, olds: Olds, b: Spec.Block, job: Job): Olds
    requires JobFits(env, job) && Runs(env, b, job)
  {
    Tx.OldsAtEnd(env, Spec.InfoOf(b), b.world, job.t, RunOf(env, b, job), r, olds)
  }

  lemma SameEnd(env: Env, r: Reader, olds: Olds, r': Reader, olds': Olds, b: Spec.Block, job: Job,
                places: set<Address>)
    requires JobFits(env, job) && Covers(env, job, places) && Agree(r, olds, r', olds', places) && Runs(env, b, job)
    ensures Recalled(env, r, olds, b, job) == Recalled(env, r', olds', b, job)
    ensures Agree(r, EndOf(env, r, olds, b, job), r', EndOf(env, r', olds', b, job), places)
  {
    var t, run := job.t, RunOf(env, b, job);
    TrailForeseen(env, Spec.InfoOf(b), b.world, t, Bare(job), places);
    var trail := Tx.TrailAtEnd(env, Spec.InfoOf(b), b.world, t, run);
    ReplayAlike(r, Between(olds), r', Between(olds'), places, trail);
    assert trail[0] == Asked(t.sender);
    SameSeen(r.base, EndOf(env, r, olds, b, job), r'.base, EndOf(env, r', olds', b, job));
  }

  lemma ForgottenAgree(r: Reader, olds: Olds, r': Reader, olds': Olds, places: set<Address>, removed: set<Address>)
    requires Agree(r, olds, r', olds', places)
    ensures Agree(r, Forgotten(olds, removed), r', Forgotten(olds', removed), places)
  {
    forall a ensures SeenAt(r.base, Forgotten(olds, removed), a) == SeenAt(r'.base, Forgotten(olds', removed), a) {
      assert SeenAt(r.base, olds, a) == SeenAt(r'.base, olds', a);
    }
  }

  /** Two states that first saw the same balances, and that are sure to load every address that is created at and every
      sender whose nonce does not rise, lead the same jobs to the same steps, whatever else they have loaded or the
      shared cache answers for. */
  lemma {:induction false} SameCourse(env: Env, r: Reader, olds: Olds, r': Reader, olds': Olds, b: Spec.Block,
                                      jobs: seq<Job>, places: set<Address>)
    requires forall i :: 0 <= i < |jobs| ==> JobFits(env, jobs[i])
    requires forall i :: 0 <= i < |jobs| ==> Covers(env, jobs[i], places)
    requires Agree(r, olds, r', olds', places)
    ensures SameSteps(r, Played(env, r, b, olds, jobs), r', Played(env, r', b, olds', jobs), places)
  {
    if jobs != [] {
      SameCourse(env, r, olds, r', olds', b, jobs[..|jobs| - 1], places);
      SameLast(env, r, olds, r', olds', b, jobs, places);
    }
  }

  lemma {:induction false} SameLast(env: Env, r: Reader, olds: Olds, r': Reader, olds': Olds, b: Spec.Block,
                                    jobs: seq<Job>, places: set<Address>)
    requires jobs != [] && Covers(env, jobs[|jobs| - 1], places)
    requires forall i :: 0 <= i < |jobs| ==> JobFits(env, jobs[i])
    requires var before := jobs[..|jobs| - 1];
             SameSteps(r, Played(env, r, b, olds, before), r', Played(env, r', b, olds', before), places)
    ensures SameSteps(r, Played(env, r, b, olds, jobs), r', Played(env, r', b, olds', jobs), places)
  {
    var last := |jobs| - 1;
    PlayedLast(env, r, b, olds, jobs);
    PlayedLast(env, r', b, olds', jobs);
    SameNext(env, r, Played(env, r, b, olds, jobs[..last]), r', Played(env, r', b, olds', jobs[..last]), b, jobs[last],
             places);
  }

  /** The same steps, and agreement after them. */
  ghost predicate SameSteps(r: Reader, c: Course, r': Reader, c': Course, places: set<Address>) {
    c.steps == c'.steps && Agree(r, c.olds, r', c'.olds, places)
  }

  lemma SameNext(env: Env, r: Reader, c: Course, r': Reader, c': Course, b: Spec.Block, job: Job, places: set<Address>)
    requires JobFits(env, job) && Covers(env, job, places)
    requires SameSteps(r, c, r', c', places) && forall i :: 0 <= i < |c.steps| ==> Spec.StepFits(env, c.steps[i])
    ensures SameSteps(r, Next(env, r, b, c, job), r', Next(env, r', b, c', job), places)
  {
    SameRecalled(env, r, c.olds, r', c'.olds, Spec.Steps(env, Spec.Open(b), c.steps).block, job, places);
  }

  /** A block does not depend on the shared cache, unless the cache answers for an address that is created at or for a
      sender whose nonce does not rise. */
  lemma CacheHidden(env: Env, hits: set<Address>, base: World, b: Spec.Block, jobs: seq<Job>, places: set<Address>)
    requires forall i :: 0 <= i < |jobs| ==> JobFits(env, jobs[i]) && Covers(env, jobs[i], places)
    requires places !! hits
    ensures Played(env, Reader(base, hits), b, map[], jobs).steps == Played(env, Reader(base, {}), b, map[], jobs).steps
  {
    SameCourse(env, Reader(base, hits), map[], Reader(base, {}), map[], b, jobs, places);
  }

  /** Nor does it depend on a closing and reopening before it, when every entry that was written to the trie still has
      the balance it was first seen with. */
  lemma ReopenHidden(env: Env, base: World, hits: set<Address>, db: World, cache: Journal.Cache, b: Spec.Block,
                     jobs: seq<Job>, places: set<Address>)
    requires forall i :: 0 <= i < |jobs| ==> JobFits(env, jobs[i]) && Covers(env, jobs[i], places)
    requires Journal.EntriesTrue(base, db, cache) && Journal.AsFirstSeen(cache)
    requires forall a :: a in places ==> a in cache || a !in hits
    ensures Played(env, Reader(base, hits), b, Journal.OldsOf(cache), jobs).steps ==
            Played(env, Reader(db, {}), b, Journal.OldsOf(Journal.Unwritten(cache)), jobs).steps
  {
    var olds, olds' := Journal.OldsOf(cache), Journal.OldsOf(Journal.Unwritten(cache));
    forall a ensures SeenAt(base, olds, a) == SeenAt(db, olds', a) {
      assert a !in cache ==> Get(db, a) == Get(base, a);
    }
    SameCourse(env, Reader(base, hits), olds, Reader(db, {}), olds', b, jobs, places);
  }

  // ---------------------------------------------------------------------------------------
  // Where the shared cache shows

  /** An address where nothing is replaced is loaded exactly when it was, or is fetched, or is asked for without an
      answer from the shared cache, and keeps the balance it was first seen with. */
  lemma {:induction false} LoadedExactly(r: Reader, m: Recollection, trail: seq<Event>, a: Address)
    requires m.olds.Keys == m.level.Keys && (a in m.level ==> m.level[a] == 0)
    requires forall i :: 0 <= i < |trail| && trail[i].Replaced? ==> trail[i].address != a
    ensures var n := Replay(r, m, trail);
            && n.olds.Keys == n.level.Keys && (a in n.level ==> n.level[a] == 0)
            && (a in n.level <==> a in m.level || Fetched(a) in trail || (Asked(a) in trail && a !in r.hits))
            && SeenAt(r.base, n.olds, a) == SeenAt(r.base, m.olds, a)
    decreases |trail|
  {
    if trail != [] {
      var last := |trail| - 1;
      var earlier := trail[..last];
      assert trail == earlier + [trail[last]];
      LoadedExactly(r, m, earlier, a);
      ReplayOne(r, m, earlier, trail[last]);
    }
  }

  /** So an account that a push creates no contract at is removed by the balance it was first seen with before, and
      keeps it unless it is removed. */
  lemma PushRemembers(env: Env, r: Reader, olds: Olds, b: Spec.Block, job: Job, a: Address)
    requires JobFits(env, job) && a !in CreationsOf(job.t, job.frame)
    ensures Runs(env, b, job) ==> Get(Recalled(env, r, olds, b, job).firstSeen, a) == SeenAt(r.base, olds, a)
    ensures SeenAt(r.base, OldsAfter(env, r, olds, b, job), a) ==
            if Runs(env, b, job) && a in Tx.RemovedAtEnd(env, Spec.InfoOf(b), job.t, RunOf(env, b, job),
                                                         Recalled(env, r, olds, b, job))
            then None else SeenAt(r.base, olds, a)
  {
    if Runs(env, b, job) {
      RunRemembers(env, r, olds, b, job, a);
    } else {
      LoadedExactly(r, Between(olds), [Asked(job.t.sender)], a);
    }
  }

  lemma RunRemembers(env: Env, r: Reader, olds: Olds, b: Spec.Block, job: Job, a: Address)
    requires JobFits(env, job) && a !in CreationsOf(job.t, job.frame) && Runs(env, b, job)
    ensures SeenAt(r.base, Tx.OldsAtEnd(env, Spec.InfoOf(b), b.world, job.t, RunOf(env, b, job), r, olds), a) ==
            SeenAt(r.base, olds, a)
  {
    var run := RunOf(env, b, job);
    assert run == Tx.OuterRun(env, b.world, job.t, Bare(job));
    TrailForeseen(env, Spec.InfoOf(b), b.world, job.t, Bare(job), CreationsOf(job.t, job.frame));
    LoadedExactly(r, Between(olds), Tx.TrailAtEnd(env, Spec.InfoOf(b), b.world, job.t, run), a);
  }

  /** Over a whole block, the balance that such an account goes by is the one it was first seen with, until it is
      removed. */
  lemma {:induction false} CourseRemembers(env: Env, r: Reader, b: Spec.Block, olds: Olds, jobs: seq<Job>, a: Address)
    requires forall i :: 0 <= i < |jobs| ==> JobFits(env, jobs[i]) && a !in CreationsOf(jobs[i].t, jobs[i].frame)
    ensures var seen := SeenAt(r.base, Played(env, r, b, olds, jobs).olds, a);
            seen == SeenAt(r.base, olds, a) || seen == None
  {
    if jobs != [] {
      var last := |jobs| - 1;
      CourseRemembers(env, r, b, olds, jobs[..last], a);
      var c := Played(env, r, b, olds, jobs[..last]);
      PushRemembers(env, r, c.olds, Spec.Steps(env, Spec.Open(b), c.steps).block, jobs[last], a);
    }
  }

  /** So a sender that need not be loaded is, when no contract is created at it, exactly when it was before, the shared
      cache does not answer for it, or the transaction fetches it. */
  lemma SenderLoaded(env: Env, info: Tx.BlockInfo, w: World, t: Tx.Transaction, o: Tx.Oracle, r: Reader, olds: Olds)
    requires Tx.BaseGas(env.schedule, t) <= t.gas && t.value + t.gas * t.gasPrice <= Balance(w, t.sender)
    requires Tx.GasLeft(Tx.OuterRun(env, w, t, o).result) <= t.gas
    requires Tx.SenderLoose(env, w, t) && t.sender !in CreationsOf(t, o.frame)
    ensures var run := Tx.OuterRun(env, w, t, o);
            Tx.OracleAtEnd(env, info, w, t, o.builtin, o.frame, run, r, olds).senderLoaded <==>
              t.sender in olds || t.sender !in r.hits || Fetched(t.sender) in Tx.TrailAtEnd(env, info, w, t, run)
  {
    var trail := Tx.TrailAtEnd(env, info, w, t, Tx.OuterRun(env, w, t, o));
    TrailForeseen(env, info, w, t, o, CreationsOf(t, o.frame));
    assert trail[0] == Asked(t.sender);
    LoadedExactly(r, Between(olds), trail, t.sender);
  }

  /** The unsigned sender of EIP-86, when it pays nothing and calls an address without code, is removed exactly when it
      is empty and was loaded before or is not answered for by the shared cache. */
  lemma UnsignedShows(env: Env, info: Tx.BlockInfo, w: World, t: Tx.Transaction, o: Tx.Oracle, r: Reader, olds: Olds)
    requires env.schedule.eip86 && env.schedule.killEmpty && env.schedule.noEmpty
    requires Tx.BaseGas(env.schedule, t) <= t.gas && t.isUnsigned && t.gasPrice == 0 && t.value == 0
    requires t.sender in w && w[t.sender].code == []
    requires t.action.CallContract? && t.action.to !in env.builtins && CodeOf(w, t.action.to) == []
    requires t.action.to != t.sender && info.author != t.sender && t.sender !in CreationsOf(t, o.frame)
    ensures Tx.SenderLoose(env, w, t) && t.gas * t.gasPrice == 0
    ensures var run := Tx.OuterRun(env, w, t, o);
            && Tx.GasLeft(run.result) <= t.gas
            && var end := Tx.OracleAtEnd(env, info, w, t, o.builtin, o.frame, run, r, olds);
               t.sender !in Tx.Finalized(env, info, t, run, end) <==>
                 IsNull(w[t.sender]) && (t.sender in olds || t.sender !in r.hits)
  {
    assert t.gas * t.gasPrice == 0;
    assert Tx.Prepaid(env, w, t) == w;
    var run := Tx.OuterRun(env, w, t, o);
    var p := Tx.OuterParams(env, w, t);
    PlainCallMoves(env, 0, false, w, Tx.PrepaidSub(env, t), p, o.builtin, o.frame);
    assert run.world == w && t.sender in run.sub.touched && run.sub.suicides == {};
    TransactionLaws.FreeCredits(env, info, t, w, Tx.ChargedGas(env.schedule, t, run));
    UnsignedUnfetched(env, info, w, t, o);
    SenderLoaded(env, info, w, t, o, r, olds);
  }

  lemma UnsignedUnfetched(env: Env, info: Tx.BlockInfo, w: World, t: Tx.Transaction, o: Tx.Oracle)
    requires env.schedule.eip86 && Mode(env.schedule).TrackTouched?
    requires Tx.BaseGas(env.schedule, t) <= t.gas && t.isUnsigned && t.gasPrice == 0 && t.value == 0
    requires t.sender in w && t.value + t.gas * t.gasPrice <= Balance(w, t.sender)
    requires t.action.CallContract? && t.action.to !in env.builtins && CodeOf(w, t.action.to) == []
    requires t.action.to != t.sender && info.author != t.sender
    requires Tx.Prepaid(env, w, t) == w && Tx.GasLeft(Tx.OuterRun(env, w, t, o).result) <= t.gas
    ensures Fetched(t.sender) !in Tx.TrailAtEnd(env, info, w, t, Tx.OuterRun(env, w, t, o))
  {
    var run := Tx.OuterRun(env, w, t, o);
    assert t.gas * t.gasPrice == 0;
    PlainCallTrail(env, w, Tx.PrepaidSub(env, t), Tx.OuterParams(env, w, t), o.builtin, o.frame);
    var used := Tx.ChargedGas(env.schedule, t, run);
    assert Tx.RefundValue(t, used) == 0 && Tx.FeesValue(t, used) == 0;
  }

  lemma PlainCallTrail(env: Env, w: World, sub: Substate, p: Params, b: BuiltinRun, frame: Frame)
    requires p.value.Moved? && p.value.amount <= Balance(w, p.sender) && p.callType.Call?
    requires p.codeAddress !in env.builtins && !p.hasCode
    ensures CallRun(env, 0, false, w, sub, p, b, frame).trail == [Entered] + PaidTrail(env, w, p) + [Left]
  {
  }

  /** A creation whose code fails at once: when the shared cache answers for its address, the address is unloaded again
      and counts as first seen with what it had; otherwise it counts as first seen with what the contract got. */
  lemma {:induction false} UndoneCreationShows(env: Env, depth: nat, w: World, sub: Substate, p: Params, frame: Frame,
                                               r: Reader)
    requires p.value.Moved? && p.value.amount <= Balance(w, p.sender) && p.sender != p.address
    requires !HasCodeOrNonce(w, p.address, env.startNonce) && !p.callType.StaticCall?
    requires frame.requests == [] && frame.outcome.Failed? && !frame.outcome.error.Internal?
    ensures CreateRun(env, depth, false, w, sub, p, frame).world == w
    ensures CountsAs(r, CreateRun(env, depth, false, w, sub, p, frame).trail, p.address,
                     if p.address in r.hits then BalanceIn(r.base, p.address)
                     else Some(p.value.amount + Balance(w, p.address)))
  {
    var paying, balance := SubTrail(w, p.sender, p.value.amount), p.value.amount + Balance(w, p.address);
    var trail := CreateRun(env, depth, false, w, sub, p, frame).trail;
    FailedTrail(env, depth, w, sub, p, frame);
    assert trail == UndoneTrail(p.address, paying, balance);
    UndoneSeen(r, p, paying, balance, trail);
  }

  /** After `trail`, on a state that had nothing loaded, `a` counts as first seen with `first`. */
  ghost predicate CountsAs(r: Reader, trail: seq<Event>, a: Address, first: Option<nat>) {
    SeenAt(r.base, Replay(r, Between(map[]), trail).olds, a) == first
  }

  function UndoneTrail(a: Address, paying: seq<Event>, balance: nat): seq<Event> {
    [Asked(a), Entered, Asked(a)] + paying + [Replaced(a, Some(balance))] + [Undone]
  }

  lemma FailedTrail(env: Env, depth: nat, w: World, sub: Substate, p: Params, frame: Frame)
    requires p.value.Moved? && p.value.amount <= Balance(w, p.sender)
    requires !HasCodeOrNonce(w, p.address, env.startNonce) && !p.callType.StaticCall?
    requires frame.requests == [] && frame.outcome.Failed? && !frame.outcome.error.Internal?
    ensures CreateRun(env, depth, false, w, sub, p, frame).world == w
    ensures CreateRun(env, depth, false, w, sub, p, frame).trail ==
            UndoneTrail(p.address, SubTrail(w, p.sender, p.value.amount), p.value.amount + Balance(w, p.address))
  {
    var ctx := Context(p.address, p.sender, depth, false);
    assert Requests(env, ctx, Progress(Endowed(env, w, p), EmptySubstate, 0, []), []).trail == [];
  }

  lemma UndoneSeen(r: Reader, p: Params, paying: seq<Event>, balance: nat, trail: seq<Event>)
    requires p.sender != p.address && trail == UndoneTrail(p.address, paying, balance)
    requires forall i :: 0 <= i < |paying| ==> paying[i] == Asked(p.sender) || paying[i] == Fetched(p.sender)
    ensures CountsAs(r, trail, p.address, if p.address in r.hits then BalanceIn(r.base, p.address) else Some(balance))
  {
    var a := p.address;
    var start := [Asked(a)];
    var inside := start + [Entered] + [Asked(a)];
    assert inside == [Asked(a), Entered, Asked(a)];
    ReplayOne(r, Between(map[]), [], Asked(a));
    assert [] + [Asked(a)] == start;
    ReplayOne(r, Between(map[]), start, Entered);
    ReplayOne(r, Between(map[]), start + [Entered], Asked(a));
    PayingKeeps(r, Between(map[]), inside, p, paying);
    ReplayOne(r, Between(map[]), inside + paying, Replaced(a, Some(balance)));
    ReplayOne(r, Between(map[]), inside + paying + [Replaced(a, Some(balance))], Undone);
  }

  /** What happens to the sender is nothing to the contract. */
  lemma {:induction false} PayingKeeps(r: Reader, m: Recollection, trail: seq<Event>, p: Params, paying: seq<Event>)
    requires p.sender != p.address
    requires forall i :: 0 <= i < |paying| ==> paying[i] == Asked(p.sender) || paying[i] == Fetched(p.sender)
    ensures var n, n' := Replay(r, m, trail), Replay(r, m, trail + paying);
            && n'.depth == n.depth && Get(n'.level, p.address) == Get(n.level, p.address)
            && Get(n'.olds, p.address) == Get(n.olds, p.address)
    decreases |paying|
  {
    if paying == [] {
      assert trail + paying == trail;
    } else {
      var last := |paying| - 1;
      PayingKeeps(r, m, trail, p, paying[..last]);
      assert trail + paying == trail + paying[..last] + [paying[last]];
      ReplayOne(r, m, trail + paying[..last], paying[last]);
    }
  }
}
