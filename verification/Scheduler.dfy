/** The actor scheduler: skynet_mq.c together with the dispatch and reference counting of
    skynet_server.c, as a state machine whose steps are the locked sections and the atomic operations.

    An agent is one activity of a thread: a worker between two visits of the global list, a sender, a
    creator, or whoever retires a handle.  A callback that sends, creates or retires does so as another
    agent, so every interleaving of the threads is an interleaving of agents.  A service is its context
    and its queue; handles are never used twice, so a service is named by its handle. */
module Scheduler {

  type Handle = nat
  type AgentId = nat
  datatype Message = Message(source: Handle, session: int, data: int)

  /** Who may touch the queue of a service. */
  datatype Owner = Nobody | InList | By(agent: AgentId)

  /** Who holds a reference to the context of a service. */
  datatype Ref = Table | Of(agent: AgentId)

  /** `owner`, `refs`, `deleter` and the three logs are history; the code keeps the other fields. */
  datatype Service = Service(
    contents: seq<Message>, inGlobal: bool, release: bool, freed: bool, priority: bool,
    ref: int, registered: bool, init: bool,
    pushed: seq<Message>, dispatched: seq<Message>, dropped: seq<Message>,
    owner: Owner, refs: set<Ref>, deleter: Owner)

  /** What an agent goes on with once its reference is released. */
  datatype Then = Rest | Publish(q: Handle) | Unregister(q: Handle) | GiveUp(q: Handle) | Work(q: Handle)

  datatype Agent =
    | Idle
    | Creating(q: Handle)                    // the module's init function is running
    | Initialising(q: Handle)                // about to write ctx->init, with its own reference released
    | Publishing(q: Handle, alive: bool)     // about to put the new queue into the global list
    | Reporting(q: Handle)                   // about to log the launch of a context that was alive
    | Unregistering(q: Handle)               // init failed, about to retire the own handle
    | ReleasingQueue(q: Handle)              // about to call skynet_mq_release
    | Dropping(q: Handle)
    | Freeing(q: Handle)
    | Sending(q: Handle, m: Message)         // skynet_context_push with the context grabbed
    | Releasing(q: Handle, next: Then)       // about to decrement the reference count
    | Deleting(q: Handle, next: Then)        // delete_context, about to mark the queue
    | Holding(q: Handle)                     // a worker with a queue, about to grab the context
    | Looping(q: Handle, i: nat, n: nat, max: int)
    | Counting(q: Handle, m: Message, i: nat, n: nat, max: int)
    | Calling(q: Handle, m: Message, i: nat, n: nat, max: int)
    | Rotating(q: Handle, nq: Handle)        // popped another queue, about to push the own one back

  datatype State = State(svc: map<Handle, Service>, global: seq<Handle>, agents: map<AgentId, Agent>) {
    function At(a: AgentId): Agent {
      if a in agents then agents[a] else Idle
    }

    /** Agent `a` moves on to `x`, service `q` becomes `v` and the global list `g`. */
    function Set(a: AgentId, x: Agent, q: Handle, v: Service, g: seq<Handle>): State {
      State(svc[q := v], g, agents[a := x])
    }
  }

  // ---- what an agent holds

  function HeldBy(t: Then): set<Handle> {
    match t
    case Rest => {}
    case Publish(q) => {q}
    case Unregister(q) => {q}
    case GiveUp(q) => {q}
    case Work(q) => {q}
  }

  /** The queues an agent may touch. */
  function Held(x: Agent): set<Handle> {
    match x
    case Idle => {}
    case Sending(_, _) => {}
    case Reporting(_) => {}
    case Releasing(_, t) => HeldBy(t)
    case Deleting(_, t) => HeldBy(t)
    case Rotating(q, nq) => {q, nq}
    case _ => {x.q}
  }

  /** The context an agent holds a reference to. */
  function Refers(x: Agent): set<Handle> {
    if x.Creating? || x.Sending? || x.Releasing? || InDispatch(x) then {x.q} else {}
  }

  predicate InDispatch(x: Agent) {
    x.Looping? || x.Counting? || x.Calling? || x.Rotating?
  }

  function Deletes(x: Agent): set<Handle> {
    if x.Deleting? then {x.q} else {}
  }

  /** Still on the way from skynet_handle_register to giving the queue away. */
  predicate Launching(x: Agent, q: Handle) {
    match x
    case Creating(p) => p == q
    case Initialising(p) => p == q
    case Publishing(p, _) => p == q
    case Unregistering(p) => p == q
    case Releasing(_, t) => t == Publish(q) || t == Unregister(q)
    case Deleting(_, t) => t == Publish(q) || t == Unregister(q)
    case _ => false
  }

  // ---- the steps

  datatype Step =
    | Launch(a: AgentId, q: Handle)
    | InitDone(a: AgentId, ok: bool)
    | Release(a: AgentId)
    | MarkRelease(a: AgentId)
    | Initialise(a: AgentId)
    | Announce(a: AgentId)
    | Report(a: AgentId)
    | RetireOwn(a: AgentId)
    | Retire(a: AgentId, q: Handle)
    | Send(a: AgentId, q: Handle, m: Message)
    | Push(a: AgentId)
    | PopGlobal(a: AgentId)
    | Grab(a: AgentId)
    | ReleaseQueue(a: AgentId)
    | Drop(a: AgentId)
    | Free(a: AgentId)
    | Take(a: AgentId)
    | Count(a: AgentId)
    | SetPriority(a: AgentId, on: bool)
    | Return(a: AgentId)
    | Rotate(a: AgentId)
    | PutBack(a: AgentId)

  /** When a thread may take a step: what it is about to do, and for PopGlobal that there is a queue.
      A lookup that fails leaves its thread where it was and is not a step. */
  predicate Enabled(s: State, t: Step) {
    match t
    case Launch(a, q) => s.At(a).Idle? && q !in s.svc
    case InitDone(a, _) => s.At(a).Creating?
    case Release(a) => s.At(a).Releasing?
    case MarkRelease(a) => s.At(a).Deleting?
    case Initialise(a) => s.At(a).Initialising?
    case Announce(a) => s.At(a).Publishing?
    case Report(a) => s.At(a).Reporting?
    case RetireOwn(a) => s.At(a).Unregistering?
    case Retire(a, q) => s.At(a).Idle? && q in s.svc && s.svc[q].registered
    case Send(a, q, m) => s.At(a).Idle? && q in s.svc && s.svc[q].registered
    case Push(a) => s.At(a).Sending?
    case PopGlobal(a) => s.At(a).Idle? && s.global != []
    case Grab(a) => s.At(a).Holding?
    case ReleaseQueue(a) => s.At(a).ReleasingQueue?
    case Drop(a) => s.At(a).Dropping?
    case Free(a) => s.At(a).Freeing?
    case Take(a) => s.At(a).Looping? && s.At(a).i < s.At(a).n
    case Count(a) => s.At(a).Counting?
    case SetPriority(a, _) => s.At(a).Calling?
    case Return(a) => s.At(a).Calling?
    case Rotate(a) => s.At(a).Looping? && s.At(a).i >= s.At(a).n
    case PutBack(a) => s.At(a).Rotating?
  }

  /** The services a step reads or writes exist. */
  predicate Known(s: State, t: Step) {
    (t.Launch? || t.Retire? || t.Send? || t.PopGlobal? || s.At(t.a).Idle? || s.At(t.a).q in s.svc) &&
    (t.PopGlobal? || t.Rotate? ==> forall q | q in s.global :: q in s.svc)
  }

  function Resume(t: Then): Agent {
    match t
    case Rest => Idle
    case Publish(q) => Publishing(q, false)
    case Unregister(q) => Unregistering(q)
    case GiveUp(q) => ReleasingQueue(q)
    case Work(q) => Holding(q)
  }

  /** skynet_globalmq_push, or _push_head for a priority queue */
  function Queued(g: seq<Handle>, q: Handle, priority: bool): seq<Handle> {
    if priority then [q] + g else g + [q]
  }

  /** skynet_context_new up to the call of the module's init function */
  function LaunchStep(s: State, a: AgentId, q: Handle): State
    requires s.At(a).Idle? && q !in s.svc
  {
    var v := Service([], true, false, false, false, 2, true, false, [], [], [], By(a), {Table, Of(a)}, Nobody);
    s.Set(a, Creating(q), q, v, s.global)
  }

  /** the init function has returned */
  function InitDoneStep(s: State, a: AgentId, ok: bool): State
    requires s.At(a).Creating? && s.At(a).q in s.svc
  {
    var q := s.At(a).q;
    s.Set(a, Releasing(q, if ok then Publish(q) else Unregister(q)), q, s.svc[q], s.global)
  }

  /** ATOM_DEC in skynet_context_release */
  function ReleaseStep(s: State, a: AgentId): State
    requires s.At(a).Releasing? && s.At(a).q in s.svc
  {
    var q, next := s.At(a).q, s.At(a).next;
    var v := s.svc[q].(ref := s.svc[q].ref - 1, refs := s.svc[q].refs - {Of(a)});
    if v.ref == 0 then s.Set(a, Deleting(q, next), q, v.(deleter := By(a)), s.global)
    else if next.Publish? && next.q == q then s.Set(a, Initialising(q), q, v, s.global)
    else s.Set(a, Resume(next), q, v, s.global)
  }

  /** skynet_mq_mark_release */
  function MarkReleaseStep(s: State, a: AgentId): State
    requires s.At(a).Deleting? && s.At(a).q in s.svc
  {
    var q, next := s.At(a).q, s.At(a).next;
    var v := s.svc[q].(release := true, deleter := Nobody);
    if v.inGlobal then s.Set(a, Resume(next), q, v, s.global)
    else s.Set(a, Resume(next), q, v.(owner := InList), s.global + [q])
  }

  /** skynet_globalmq_push at the end of skynet_context_new */
  function AnnounceStep(s: State, a: AgentId): State
    requires s.At(a).Publishing? && s.At(a).q in s.svc
  {
    var q := s.At(a).q;
    s.Set(a, if s.At(a).alive then Reporting(q) else Idle, q, s.svc[q].(owner := InList), s.global + [q])
  }

  /** a creator whose context survived its release marks it initialised */
  function InitialiseStep(s: State, a: AgentId): State
    requires s.At(a).Initialising? && s.At(a).q in s.svc
  {
    var q := s.At(a).q;
    s.Set(a, Publishing(q, true), q, s.svc[q].(init := true), s.global)
  }

  /** skynet_error at the end of skynet_context_new, which reads the handle of the context */
  function ReportStep(s: State, a: AgentId): State
    requires s.At(a).Reporting? && s.At(a).q in s.svc
  {
    var q := s.At(a).q;
    s.Set(a, Idle, q, s.svc[q], s.global)
  }

  /** skynet_handle_retire after a failed init */
  function RetireOwnStep(s: State, a: AgentId): State
    requires s.At(a).Unregistering? && s.At(a).q in s.svc
  {
    var q := s.At(a).q;
    var v := s.svc[q];
    if v.registered then s.Set(a, Releasing(q, GiveUp(q)), q, v.(registered := false, refs := v.refs - {Table} + {Of(a)}), s.global)
    else s.Set(a, ReleasingQueue(q), q, v, s.global)
  }

  /** skynet_handle_retire */
  function RetireStep(s: State, a: AgentId, q: Handle): State
    requires s.At(a).Idle? && q in s.svc && s.svc[q].registered
  {
    var v := s.svc[q];
    s.Set(a, Releasing(q, Rest), q, v.(registered := false, refs := v.refs - {Table} + {Of(a)}), s.global)
  }

  /** skynet_handle_grab in skynet_context_push */
  function SendStep(s: State, a: AgentId, q: Handle, m: Message): State
    requires s.At(a).Idle? && q in s.svc && s.svc[q].registered
  {
    var v := s.svc[q];
    s.Set(a, Sending(q, m), q, v.(ref := v.ref + 1, refs := v.refs + {Of(a)}), s.global)
  }

  /** skynet_mq_push */
  function PushStep(s: State, a: AgentId): State
    requires s.At(a).Sending? && s.At(a).q in s.svc
  {
    var q, m := s.At(a).q, s.At(a).m;
    var v := s.svc[q].(contents := s.svc[q].contents + [m], pushed := s.svc[q].pushed + [m]);
    if v.inGlobal then s.Set(a, Releasing(q, Rest), q, v, s.global)
    else s.Set(a, Releasing(q, Rest), q, v.(inGlobal := true, owner := InList), Queued(s.global, q, v.priority))
  }

  /** skynet_globalmq_pop */
  function PopGlobalStep(s: State, a: AgentId): State
    requires s.At(a).Idle? && s.global != [] && s.global[0] in s.svc
  {
    var q := s.global[0];
    s.Set(a, Holding(q), q, s.svc[q].(owner := By(a)), s.global[1..])
  }

  /** skynet_handle_grab in skynet_context_message_dispatch */
  function GrabStep(s: State, a: AgentId): State
    requires s.At(a).Holding? && s.At(a).q in s.svc
  {
    var q := s.At(a).q;
    var v := s.svc[q];
    if v.registered then s.Set(a, Looping(q, 0, 1, if v.priority then 65536 else 1), q, v.(ref := v.ref + 1, refs := v.refs + {Of(a)}), s.global)
    else s.Set(a, ReleasingQueue(q), q, v, s.global)
  }

  /** the locked part of skynet_mq_release */
  function ReleaseQueueStep(s: State, a: AgentId): State
    requires s.At(a).ReleasingQueue? && s.At(a).q in s.svc
  {
    var q := s.At(a).q;
    if s.svc[q].release then s.Set(a, Dropping(q), q, s.svc[q], s.global)
    else s.Set(a, Idle, q, s.svc[q].(owner := InList), s.global + [q])
  }

  /** skynet_mq_pop in _drop_queue */
  function DropStep(s: State, a: AgentId): State
    requires s.At(a).Dropping? && s.At(a).q in s.svc
  {
    var q := s.At(a).q;
    var v := s.svc[q];
    if v.contents == [] then s.Set(a, Freeing(q), q, v.(inGlobal := false), s.global)
    else s.Set(a, Dropping(q), q, v.(contents := v.contents[1..], dropped := v.dropped + [v.contents[0]]), s.global)
  }

  /** _release */
  function FreeStep(s: State, a: AgentId): State
    requires s.At(a).Freeing? && s.At(a).q in s.svc
  {
    var q := s.At(a).q;
    s.Set(a, Idle, q, s.svc[q].(freed := true, owner := Nobody), s.global)
  }

  /** skynet_mq_pop in the dispatch loop */
  function TakeStep(s: State, a: AgentId): State
    requires s.At(a).Looping? && s.At(a).q in s.svc
  {
    var x := s.At(a);
    var v := s.svc[x.q];
    if v.contents == [] then s.Set(a, Releasing(x.q, Rest), x.q, v.(inGlobal := false, owner := Nobody), s.global)
    else
      s.Set(a, Counting(x.q, v.contents[0], x.i, x.n, x.max), x.q,
            v.(contents := v.contents[1..], dispatched := v.dispatched + [v.contents[0]]), s.global)
  }

  /** skynet_mq_length in the dispatch loop */
  function CountStep(s: State, a: AgentId): State
    requires s.At(a).Counting? && s.At(a).q in s.svc
  {
    var x := s.At(a);
    var grow := x.i + 1 == x.n && x.max > 0;
    s.Set(a, Calling(x.q, x.m, x.i, if grow then x.n + |s.svc[x.q].contents| else x.n, if grow then x.max - 1 else x.max),
          x.q, s.svc[x.q], s.global)
  }

  /** cmd_priority, called by the service itself */
  function SetPriorityStep(s: State, a: AgentId, on: bool): State
    requires s.At(a).Calling? && s.At(a).q in s.svc
  {
    var q := s.At(a).q;
    s.Set(a, s.At(a), q, s.svc[q].(priority := on), s.global)
  }

  /** the callback returns */
  function ReturnStep(s: State, a: AgentId): State
    requires s.At(a).Calling? && s.At(a).q in s.svc
  {
    var x := s.At(a);
    s.Set(a, Looping(x.q, x.i + 1, x.n, x.max), x.q, s.svc[x.q], s.global)
  }

  /** skynet_globalmq_pop after the dispatch loop */
  function RotateStep(s: State, a: AgentId): State
    requires s.At(a).Looping? && s.At(a).q in s.svc && (s.global != [] ==> s.global[0] in s.svc)
  {
    var q := s.At(a).q;
    if s.global == [] then s.Set(a, Releasing(q, Work(q)), q, s.svc[q], s.global)
    else s.Set(a, Rotating(q, s.global[0]), s.global[0], s.svc[s.global[0]].(owner := By(a)), s.global[1..])
  }

  /** pushing the own queue back */
  function PutBackStep(s: State, a: AgentId): State
    requires s.At(a).Rotating? && s.At(a).q in s.svc
  {
    var q, nq := s.At(a).q, s.At(a).nq;
    var v := s.svc[q];
    s.Set(a, Releasing(q, Work(nq)), q, v.(owner := InList), Queued(s.global, q, v.priority))
  }

  function Apply(s: State, t: Step): State
    requires Enabled(s, t) && Known(s, t)
  {
    match t
    case Launch(a, q) => LaunchStep(s, a, q)
    case InitDone(a, ok) => InitDoneStep(s, a, ok)
    case Release(a) => ReleaseStep(s, a)
    case MarkRelease(a) => MarkReleaseStep(s, a)
    case Initialise(a) => InitialiseStep(s, a)
    case Announce(a) => AnnounceStep(s, a)
    case Report(a) => ReportStep(s, a)
    case RetireOwn(a) => RetireOwnStep(s, a)
    case Retire(a, q) => RetireStep(s, a, q)
    case Send(a, q, m) => SendStep(s, a, q, m)
    case Push(a) => PushStep(s, a)
    case PopGlobal(a) => PopGlobalStep(s, a)
    case Grab(a) => GrabStep(s, a)
    case ReleaseQueue(a) => ReleaseQueueStep(s, a)
    case Drop(a) => DropStep(s, a)
    case Free(a) => FreeStep(s, a)
    case Take(a) => TakeStep(s, a)
    case Count(a) => CountStep(s, a)
    case SetPriority(a, on) => SetPriorityStep(s, a, on)
    case Return(a) => ReturnStep(s, a)
    case Rotate(a) => RotateStep(s, a)
    case PutBack(a) => PutBackStep(s, a)
  }

  // ---- the invariant

  /** What holds of one service by itself. */
  predicate ServiceOk(v: Service) {
    // the reference count counts the table entry and the agents that hold a reference
    v.ref == |v.refs| && (v.registered <==> Table in v.refs) &&
    // the flag and the list stand for ownership, and nothing waits in a queue that nobody owns
    (v.owner.Nobody? <==> v.freed || (!v.inGlobal && !v.release)) &&
    (v.owner.Nobody? ==> v.contents == []) &&
    // deletion: the queue is marked once, after the last reference is gone
    (v.freed ==> v.release) && (v.release ==> v.refs == {}) &&
    (v.deleter.Nobody? <==> v.refs != {} || v.release) && !v.deleter.InList? &&
    // nothing is lost, reordered or duplicated
    v.pushed == v.dispatched + v.dropped + v.contents && (v.dropped != [] ==> v.release) &&
    // a context that can still be found is initialised, or its creator still has the queue
    (v.registered && !v.init ==> v.owner.By?)
  }

  /** What holds between an agent and a service: the history of the service tells what the agent has. */
  predicate Linked(x: Agent, a: AgentId, q: Handle, v: Service) {
    (q in Held(x) <==> v.owner == By(a)) &&
    (q in Refers(x) <==> Of(a) in v.refs) &&
    (q in Deletes(x) <==> v.deleter == By(a)) &&
    (x.Dropping? && x.q == q ==> v.release) &&
    (x.Freeing? && x.q == q ==> v.release && !v.inGlobal && v.contents == []) &&
    (x.ReleasingQueue? && x.q == q ==> !v.registered) &&
    ((x.Releasing? || x.Deleting?) && x.next == GiveUp(q) ==> !v.registered) &&
    (x.Publishing? && x.q == q && v.registered ==> v.init) &&
    (InDispatch(x) && x.q == q ==> v.init && v.inGlobal) &&
    (v.owner == By(a) && v.registered && !v.init ==> Launching(x, q))
  }

  predicate Proper(x: Agent, services: set<Handle>) {
    Held(x) <= services && Refers(x) <= services && Deletes(x) <= services && (x.Rotating? ==> x.q != x.nq) &&
    (x.Reporting? ==> x.q in services) &&
    ((x.Releasing? || x.Deleting?) && (x.next.Publish? || x.next.Unregister? || x.next.GiveUp?) ==> x.next.q == x.q)
  }

  predicate NoDuplicates(g: seq<Handle>) {
    forall i, j | 0 <= i < j < |g| :: g[i] != g[j]
  }

  ghost predicate Inv(s: State) {
    (forall q | q in s.svc :: ServiceOk(s.svc[q])) &&
    (forall a :: Proper(s.At(a), s.svc.Keys)) &&
    (forall a, q | q in s.svc :: Linked(s.At(a), a, q, s.svc[q])) &&
    (forall q :: q in s.global <==> q in s.svc && s.svc[q].owner.InList?) && NoDuplicates(s.global)
  }

  // ---- frame: a step moves one agent and changes one service

  /** Agent `a` keeps what it has of every service but `q`. */
  predicate SameElsewhere(x: Agent, y: Agent, q: Handle) {
    Held(x) - {q} == Held(y) - {q} && Refers(x) - {q} == Refers(y) - {q} && Deletes(x) - {q} == Deletes(y) - {q} &&
    (forall p | p in Held(x) - {q} :: Launching(x, p) ==> Launching(y, p)) &&
    ((y.Dropping? || y.Freeing? || y.ReleasingQueue? || InDispatch(y)) && y.q != q ==>
      InDispatch(x) && InDispatch(y) && x.q == y.q) &&
    ((y.Releasing? || y.Deleting?) && y.next.GiveUp? ==> y.next.q == q) && (y.Publishing? ==> y.q == q)
  }

  /** What the agents other than `a` have of a service stays theirs. */
  ghost predicate SameForOthers(v: Service, w: Service, a: AgentId) {
    (forall b | b != a :: (v.owner == By(b) <==> w.owner == By(b)) && (Of(b) in v.refs <==> Of(b) in w.refs) &&
                          (v.deleter == By(b) <==> w.deleter == By(b))) &&
    (v.release ==> w.release) && (v.registered || !w.registered) && (v.init ==> w.init) &&
    (v.owner.By? && v.owner != By(a) ==> w.inGlobal == v.inGlobal && (v.release ==> w.contents == v.contents))
  }

  predicate ListStep(g: seq<Handle>, h: seq<Handle>, q: Handle, was: Owner, now: Owner) {
    (g == h && (was.InList? <==> now.InList?)) ||
    ((h == g + [q] || h == [q] + g) && !was.InList? && now.InList?) ||
    (g != [] && g[0] == q && h == g[1..] && !now.InList?)
  }

  lemma ListKeeps(s: State, q: Handle, w: Service, h: seq<Handle>)
    requires Inv(s) && q in s.svc && ListStep(s.global, h, q, s.svc[q].owner, w.owner)
    ensures NoDuplicates(h)
    ensures forall p :: p in h <==> p in s.svc && (if p == q then w else s.svc[p]).owner.InList?
  {
  }

  /** The logs only grow, and what is over stays over. */
  predicate Extends(v: Service, w: Service) {
    v.pushed <= w.pushed && v.dispatched <= w.dispatched && v.dropped <= w.dropped &&
    (v.release ==> w.release) && (v.freed ==> w.freed)
  }

  ghost predicate Grows(s: State, s': State) {
    forall q | q in s.svc :: q in s'.svc && Extends(s.svc[q], s'.svc[q])
  }

  lemma Assemble(s: State, a: AgentId, x: Agent, q: Handle, w: Service, h: seq<Handle>)
    requires Inv(s) && q in s.svc
    requires SameElsewhere(s.At(a), x, q) && SameForOthers(s.svc[q], w, a)
    requires ListStep(s.global, h, q, s.svc[q].owner, w.owner)
    requires ServiceOk(w) && Linked(x, a, q, w) && Proper(x, s.svc.Keys) && Extends(s.svc[q], w)
    ensures Inv(s.Set(a, x, q, w, h)) && Grows(s, s.Set(a, x, q, w, h))
  {
    hide SameElsewhere, SameForOthers, ListStep, Extends, Linked, Proper;
    var s' := s.Set(a, x, q, w, h);
    ListKeeps(s, q, w, h);
    assert s'.svc.Keys == s.svc.Keys;
    forall b ensures Proper(s'.At(b), s'.svc.Keys) {
      assert Proper(s.At(b), s.svc.Keys);
    }
    forall p ensures p in s'.global <==> p in s'.svc && s'.svc[p].owner.InList? {
    }
    forall b, p | p in s'.svc
      ensures Linked(s'.At(b), b, p, s'.svc[p])
    {
      LinkedAfter(s, a, x, q, w, h, b, p);
    }
    forall p | p in s.svc ensures Extends(s.svc[p], s'.svc[p]) {
      if p != q { ExtendsItself(s.svc[p]); }
    }
  }

  lemma LinkedAfter(s: State, a: AgentId, x: Agent, q: Handle, w: Service, h: seq<Handle>, b: AgentId, p: Handle)
    requires Inv(s) && q in s.svc && p in s.svc && ServiceOk(w) && Linked(x, a, q, w)
    requires SameElsewhere(s.At(a), x, q) && SameForOthers(s.svc[q], w, a)
    ensures
      var s' := s.Set(a, x, q, w, h);
      Linked(s'.At(b), b, p, s'.svc[p])
  {
    hide SameElsewhere, SameForOthers, Linked, ServiceOk, Proper, NoDuplicates;
    assert Linked(s.At(b), b, p, s.svc[p]);
    if b == a && p != q {
      LinkedElsewhere(s.At(a), x, a, q, p, s.svc[p]);
    } else if b != a && p == q {
      LinkedToOthers(s.svc[q], w, a, b, s.At(b), q);
    }
  }

  lemma ExtendsItself(v: Service)
    ensures Extends(v, v)
  {
  }

  lemma LinkedToOthers(v: Service, w: Service, a: AgentId, b: AgentId, y: Agent, q: Handle)
    requires b != a && SameForOthers(v, w, a) && Linked(y, b, q, v) && ServiceOk(w)
    ensures Linked(y, b, q, w)
  {
  }

  lemma LinkedElsewhere(x: Agent, y: Agent, a: AgentId, q: Handle, p: Handle, v: Service)
    requires p != q && SameElsewhere(x, y, q) && Linked(x, a, p, v)
    ensures Linked(y, a, p, v)
  {
    assert p in Held(x) - {q} <==> p in Held(y) - {q};
    assert p in Refers(x) - {q} <==> p in Refers(y) - {q};
    assert p in Deletes(x) - {q} <==> p in Deletes(y) - {q};
  }

  /** In an invariant state every step finds the services it touches. */
  lemma StepsAreKnown(s: State, t: Step)
    requires Inv(s) && Enabled(s, t)
    ensures Known(s, t)
  {
    assert Proper(s.At(t.a), s.svc.Keys);
  }

  lemma LaunchKeeps(s: State, a: AgentId, q: Handle)
    requires Inv(s) && s.At(a).Idle? && q !in s.svc
    ensures Inv(LaunchStep(s, a, q)) && Grows(s, LaunchStep(s, a, q))
  {
    var s' := LaunchStep(s, a, q);
    assert {Table, Of(a)} - {Table} == {Of(a)};
    forall b ensures Proper(s'.At(b), s'.svc.Keys) {
      assert Proper(s.At(b), s.svc.Keys);
    }
    forall b, p | p in s'.svc
      ensures Linked(s'.At(b), b, p, s'.svc[p])
    {
      assert Proper(s.At(b), s.svc.Keys);
      assert p in s.svc ==> Linked(s.At(b), b, p, s.svc[p]);
    }
  }

  /** What the invariant says about the agent and the service of one step. */
  lemma Facts(s: State, a: AgentId, q: Handle)
    requires Inv(s) && q in s.svc
    ensures Proper(s.At(a), s.svc.Keys) && Linked(s.At(a), a, q, s.svc[q]) && ServiceOk(s.svc[q])
    ensures q in s.global <==> s.svc[q].owner.InList?
    ensures s.global != [] && s.global[0] == q ==> s.svc[q].owner.InList?
  {
  }

  lemma InitDoneKeeps(s: State, a: AgentId, ok: bool)
    requires Inv(s) && s.At(a).Creating? && s.At(a).q in s.svc
    ensures Inv(InitDoneStep(s, a, ok)) && Grows(s, InitDoneStep(s, a, ok))
  {
    var q := s.At(a).q;
    hide Inv, Grows;
    Facts(s, a, q);
    var s' := InitDoneStep(s, a, ok);
    Assemble(s, a, s'.At(a), q, s'.svc[q], s'.global);
  }

  lemma ReleaseKeeps(s: State, a: AgentId)
    requires Inv(s) && s.At(a).Releasing? && s.At(a).q in s.svc
    ensures Inv(ReleaseStep(s, a)) && Grows(s, ReleaseStep(s, a))
  {
    var q, next := s.At(a).q, s.At(a).next;
    var v := s.svc[q];
    hide Inv, Grows;
    Facts(s, a, q);
    var rest := v.refs - {Of(a)};
    assert |rest| == |v.refs| - 1;
    if |rest| == 0 {
      ReleaseLast(s, a, v, q, next);
    } else {
      ReleaseMore(s, a, v, q, next);
    }
  }

  lemma ReleaseMore(s: State, a: AgentId, v: Service, q: Handle, next: Then)
    requires Inv(s) && s.At(a) == Releasing(q, next) && q in s.svc && v == s.svc[q]
    requires |v.refs - {Of(a)}| == |v.refs| - 1 > 0 && Proper(Releasing(q, next), s.svc.Keys)
    ensures
      var w := v.(ref := v.ref - 1, refs := v.refs - {Of(a)});
      var s' := s.Set(a, if next.Publish? then Initialising(q) else Resume(next), q, w, s.global);
      Inv(s') && Grows(s, s')
  {
    hide Inv, Grows;
    Facts(s, a, q);
    var w := v.(ref := v.ref - 1, refs := v.refs - {Of(a)});
    Assemble(s, a, if next.Publish? then Initialising(q) else Resume(next), q, w, s.global);
  }

  /** The last reference is gone: the agent that dropped it is the one that deletes the context. */
  lemma ReleaseLast(s: State, a: AgentId, v: Service, q: Handle, next: Then)
    requires Inv(s) && s.At(a) == Releasing(q, next) && q in s.svc && v == s.svc[q] && v.refs == {Of(a)}
    ensures
      var s' := s.Set(a, Deleting(q, next), q, v.(ref := 0, refs := {}, deleter := By(a)), s.global);
      Inv(s') && Grows(s, s')
  {
    hide Inv, Grows;
    Facts(s, a, q);
    Assemble(s, a, Deleting(q, next), q, v.(ref := 0, refs := {}, deleter := By(a)), s.global);
  }

  lemma MarkReleaseKeeps(s: State, a: AgentId)
    requires Inv(s) && s.At(a).Deleting? && s.At(a).q in s.svc
    ensures Inv(MarkReleaseStep(s, a)) && Grows(s, MarkReleaseStep(s, a))
  {
    hide Inv, Grows;
    var q, next := s.At(a).q, s.At(a).next;
    Facts(s, a, q);
    var v := s.svc[q].(release := true, deleter := Nobody);
    if v.inGlobal {
      Assemble(s, a, Resume(next), q, v, s.global);
    } else {
      Assemble(s, a, Resume(next), q, v.(owner := InList), s.global + [q]);
    }
  }

  lemma AnnounceKeeps(s: State, a: AgentId)
    requires Inv(s) && s.At(a).Publishing? && s.At(a).q in s.svc
    ensures Inv(AnnounceStep(s, a)) && Grows(s, AnnounceStep(s, a))
  {
    var q := s.At(a).q;
    hide Inv, Grows;
    Facts(s, a, q);
    var s' := AnnounceStep(s, a);
    Assemble(s, a, s'.At(a), q, s'.svc[q], s'.global);
  }

  lemma InitialiseKeeps(s: State, a: AgentId)
    requires Inv(s) && s.At(a).Initialising? && s.At(a).q in s.svc
    ensures Inv(InitialiseStep(s, a)) && Grows(s, InitialiseStep(s, a))
  {
    var q := s.At(a).q;
    hide Inv, Grows;
    Facts(s, a, q);
    var s' := InitialiseStep(s, a);
    Assemble(s, a, s'.At(a), q, s'.svc[q], s'.global);
  }

  lemma ReportKeeps(s: State, a: AgentId)
    requires Inv(s) && s.At(a).Reporting? && s.At(a).q in s.svc
    ensures Inv(ReportStep(s, a)) && Grows(s, ReportStep(s, a))
  {
    var q := s.At(a).q;
    hide Inv, Grows;
    Facts(s, a, q);
    var s' := ReportStep(s, a);
    Assemble(s, a, s'.At(a), q, s'.svc[q], s'.global);
  }

  lemma RetireOwnKeeps(s: State, a: AgentId)
    requires Inv(s) && s.At(a).Unregistering? && s.At(a).q in s.svc
    ensures Inv(RetireOwnStep(s, a)) && Grows(s, RetireOwnStep(s, a))
  {
    var q := s.At(a).q;
    hide Inv, Grows;
    Facts(s, a, q);
    var s' := RetireOwnStep(s, a);
    Assemble(s, a, s'.At(a), q, s'.svc[q], s'.global);
  }

  lemma PushKeeps(s: State, a: AgentId)
    requires Inv(s) && s.At(a).Sending? && s.At(a).q in s.svc
    ensures Inv(PushStep(s, a)) && Grows(s, PushStep(s, a))
  {
    var q := s.At(a).q;
    hide Inv, Grows;
    Facts(s, a, q);
    var s' := PushStep(s, a);
    Assemble(s, a, s'.At(a), q, s'.svc[q], s'.global);
  }

  lemma GrabKeeps(s: State, a: AgentId)
    requires Inv(s) && s.At(a).Holding? && s.At(a).q in s.svc
    ensures Inv(GrabStep(s, a)) && Grows(s, GrabStep(s, a))
  {
    var q := s.At(a).q;
    hide Inv, Grows;
    Facts(s, a, q);
    var s' := GrabStep(s, a);
    Assemble(s, a, s'.At(a), q, s'.svc[q], s'.global);
  }

  lemma ReleaseQueueKeeps(s: State, a: AgentId)
    requires Inv(s) && s.At(a).ReleasingQueue? && s.At(a).q in s.svc
    ensures Inv(ReleaseQueueStep(s, a)) && Grows(s, ReleaseQueueStep(s, a))
  {
    var q := s.At(a).q;
    hide Inv, Grows;
    Facts(s, a, q);
    var s' := ReleaseQueueStep(s, a);
    Assemble(s, a, s'.At(a), q, s'.svc[q], s'.global);
  }

  lemma DropKeeps(s: State, a: AgentId)
    requires Inv(s) && s.At(a).Dropping? && s.At(a).q in s.svc
    ensures Inv(DropStep(s, a)) && Grows(s, DropStep(s, a))
  {
    var q := s.At(a).q;
    var v := s.svc[q];
    hide Inv, Grows;
    Facts(s, a, q);
    if v.contents == [] {
      Assemble(s, a, Freeing(q), q, v.(inGlobal := false), s.global);
    } else {
      var w := v.(contents := v.contents[1..], dropped := v.dropped + [v.contents[0]]);
      assert v.dropped + v.contents == w.dropped + w.contents;
      Assemble(s, a, Dropping(q), q, w, s.global);
    }
  }

  lemma FreeKeeps(s: State, a: AgentId)
    requires Inv(s) && s.At(a).Freeing? && s.At(a).q in s.svc
    ensures Inv(FreeStep(s, a)) && Grows(s, FreeStep(s, a))
  {
    var q := s.At(a).q;
    hide Inv, Grows;
    Facts(s, a, q);
    var s' := FreeStep(s, a);
    Assemble(s, a, s'.At(a), q, s'.svc[q], s'.global);
  }

  lemma TakeKeeps(s: State, a: AgentId)
    requires Inv(s) && s.At(a).Looping? && s.At(a).q in s.svc
    ensures Inv(TakeStep(s, a)) && Grows(s, TakeStep(s, a))
  {
    var x := s.At(a);
    var v := s.svc[x.q];
    hide Inv, Grows;
    Facts(s, a, x.q);
    if v.contents == [] {
      Assemble(s, a, Releasing(x.q, Rest), x.q, v.(inGlobal := false, owner := Nobody), s.global);
    } else {
      var w := v.(contents := v.contents[1..], dispatched := v.dispatched + [v.contents[0]]);
      assert v.dropped == [] && v.dispatched + v.contents == w.dispatched + w.contents;
      Assemble(s, a, Counting(x.q, v.contents[0], x.i, x.n, x.max), x.q, w, s.global);
    }
  }

  lemma CountKeeps(s: State, a: AgentId)
    requires Inv(s) && s.At(a).Counting? && s.At(a).q in s.svc
    ensures Inv(CountStep(s, a)) && Grows(s, CountStep(s, a))
  {
    var q := s.At(a).q;
    hide Inv, Grows;
    Facts(s, a, q);
    var s' := CountStep(s, a);
    Assemble(s, a, s'.At(a), q, s'.svc[q], s'.global);
  }

  lemma SetPriorityKeeps(s: State, a: AgentId, on: bool)
    requires Inv(s) && s.At(a).Calling? && s.At(a).q in s.svc
    ensures Inv(SetPriorityStep(s, a, on)) && Grows(s, SetPriorityStep(s, a, on))
  {
    var q := s.At(a).q;
    hide Inv, Grows;
    Facts(s, a, q);
    var s' := SetPriorityStep(s, a, on);
    Assemble(s, a, s'.At(a), q, s'.svc[q], s'.global);
  }

  lemma ReturnKeeps(s: State, a: AgentId)
    requires Inv(s) && s.At(a).Calling? && s.At(a).q in s.svc
    ensures Inv(ReturnStep(s, a)) && Grows(s, ReturnStep(s, a))
  {
    var q := s.At(a).q;
    hide Inv, Grows;
    Facts(s, a, q);
    var s' := ReturnStep(s, a);
    Assemble(s, a, s'.At(a), q, s'.svc[q], s'.global);
  }

  lemma PutBackKeeps(s: State, a: AgentId)
    requires Inv(s) && s.At(a).Rotating? && s.At(a).q in s.svc
    ensures Inv(PutBackStep(s, a)) && Grows(s, PutBackStep(s, a))
  {
    var q := s.At(a).q;
    hide Inv, Grows;
    Facts(s, a, q);
    var s' := PutBackStep(s, a);
    Assemble(s, a, s'.At(a), q, s'.svc[q], s'.global);
  }

  lemma RetireKeeps(s: State, a: AgentId, q: Handle)
    requires Inv(s) && s.At(a).Idle? && q in s.svc && s.svc[q].registered
    ensures Inv(RetireStep(s, a, q)) && Grows(s, RetireStep(s, a, q))
  {
    hide Inv, Grows;
    Facts(s, a, q);
    var v := s.svc[q];
    var w := v.(registered := false, refs := v.refs - {Table} + {Of(a)});
    assert |v.refs - {Table}| == |v.refs| - 1;
    Assemble(s, a, Releasing(q, Rest), q, w, s.global);
  }

  lemma SendKeeps(s: State, a: AgentId, q: Handle, m: Message)
    requires Inv(s) && s.At(a).Idle? && q in s.svc && s.svc[q].registered
    ensures Inv(SendStep(s, a, q, m)) && Grows(s, SendStep(s, a, q, m))
  {
    hide Inv, Grows;
    Facts(s, a, q);
    var s' := SendStep(s, a, q, m);
    Assemble(s, a, s'.At(a), q, s'.svc[q], s'.global);
  }

  lemma PopGlobalKeeps(s: State, a: AgentId)
    requires Inv(s) && s.At(a).Idle? && s.global != [] && s.global[0] in s.svc
    ensures Inv(PopGlobalStep(s, a)) && Grows(s, PopGlobalStep(s, a))
  {
    var q := s.global[0];
    hide Inv, Grows;
    Facts(s, a, q);
    var s' := PopGlobalStep(s, a);
    Assemble(s, a, s'.At(a), q, s'.svc[q], s'.global);
  }

  lemma RotateKeeps(s: State, a: AgentId)
    requires Inv(s) && s.At(a).Looping? && s.At(a).q in s.svc && (s.global != [] ==> s.global[0] in s.svc)
    ensures Inv(RotateStep(s, a)) && Grows(s, RotateStep(s, a))
  {
    hide Inv, Grows;
    var q := s.At(a).q;
    if s.global == [] {
      Facts(s, a, q);
      Assemble(s, a, Releasing(q, Work(q)), q, s.svc[q], s.global);
    } else {
      TakeNextKeeps(s, a, q, s.global[0]);
    }
  }

  /** A worker takes the first queue of the list besides its own. */
  lemma TakeNextKeeps(s: State, a: AgentId, q: Handle, nq: Handle)
    requires Inv(s) && s.At(a).Looping? && s.At(a).q == q && nq in s.svc && s.global != [] && s.global[0] == nq
    ensures
      var s' := s.Set(a, Rotating(q, nq), nq, s.svc[nq].(owner := By(a)), s.global[1..]);
      Inv(s') && Grows(s, s')
  {
    hide Inv, Grows;
    Facts(s, a, nq);
    var x, w := Rotating(q, nq), s.svc[nq].(owner := By(a));
    assert Proper(x, s.svc.Keys);
    assert Linked(x, a, nq, w);
    assert SameElsewhere(s.At(a), x, nq);
    hide Proper, Linked, SameElsewhere;
    Assemble(s, a, x, nq, w, s.global[1..]);
  }

  /** Every step of every thread keeps the invariant. */
  lemma StepKeeps(s: State, t: Step)
    requires Inv(s) && Enabled(s, t)
    ensures Known(s, t) && Inv(Apply(s, t)) && Grows(s, Apply(s, t))
  {
    StepsAreKnown(s, t);
    match t
    case Launch(a, q) => LaunchKeeps(s, a, q);
    case InitDone(a, ok) => InitDoneKeeps(s, a, ok);
    case Release(a) => ReleaseKeeps(s, a);
    case MarkRelease(a) => MarkReleaseKeeps(s, a);
    case Initialise(a) => InitialiseKeeps(s, a);
    case Announce(a) => AnnounceKeeps(s, a);
    case Report(a) => ReportKeeps(s, a);
    case RetireOwn(a) => RetireOwnKeeps(s, a);
    case Retire(a, q) => RetireKeeps(s, a, q);
    case Send(a, q, m) => SendKeeps(s, a, q, m);
    case Push(a) => PushKeeps(s, a);
    case PopGlobal(a) => PopGlobalKeeps(s, a);
    case Grab(a) => GrabKeeps(s, a);
    case ReleaseQueue(a) => ReleaseQueueKeeps(s, a);
    case Drop(a) => DropKeeps(s, a);
    case Free(a) => FreeKeeps(s, a);
    case Take(a) => TakeKeeps(s, a);
    case Count(a) => CountKeeps(s, a);
    case SetPriority(a, on) => SetPriorityKeeps(s, a, on);
    case Return(a) => ReturnKeeps(s, a);
    case Rotate(a) => RotateKeeps(s, a);
    case PutBack(a) => PutBackKeeps(s, a);
  }

  // ---- runs

  const START := State(map[], [], map[])

  /** A run from the empty node; each step is one that some thread may take. */
  ghost predicate IsRun(states: seq<State>, steps: seq<Step>) {
    |states| == |steps| + 1 && states[0] == START &&
    forall i | 0 <= i < |steps| ::
      Enabled(states[i], steps[i]) && (Known(states[i], steps[i]) ==> states[i + 1] == Apply(states[i], steps[i]))
  }

  lemma {:induction false} RunKeeps(states: seq<State>, steps: seq<Step>, i: nat)
    requires IsRun(states, steps) && i < |states|
    ensures Inv(states[i])
  {
    if i > 0 {
      RunKeeps(states, steps, i - 1);
      StepKeeps(states[i - 1], steps[i - 1]);
    }
  }

  /** One step of a run. */
  lemma RunSteps(states: seq<State>, steps: seq<Step>, n: nat)
    requires IsRun(states, steps) && n < |steps|
    ensures Inv(states[n]) && Enabled(states[n], steps[n]) && Known(states[n], steps[n])
    ensures states[n + 1] == Apply(states[n], steps[n])
  {
    hide Inv, Apply, Enabled, Known;
    RunKeeps(states, steps, n);
    StepKeeps(states[n], steps[n]);
  }

  /** In every interleaving a queue has at most one holder: one agent, or one place in the global list.
      So no two workers are ever in the callback of one service, and its context is alive and
      initialised when they are. */
  lemma MutualExclusion(states: seq<State>, steps: seq<Step>, i: nat, a: AgentId, q: Handle)
    requires IsRun(states, steps) && i < |states| && q in Held(states[i].At(a))
    ensures q !in states[i].global && q in states[i].svc && !states[i].svc[q].freed
    ensures forall b | q in Held(states[i].At(b)) :: b == a
    ensures states[i].At(a).Calling? ==> states[i].svc[q].ref > 0 && states[i].svc[q].init
  {
    RunKeeps(states, steps, i);
    var s := states[i];
    assert Proper(s.At(a), s.svc.Keys) && Linked(s.At(a), a, q, s.svc[q]);
    forall b | q in Held(s.At(b)) ensures b == a {
      assert Linked(s.At(b), b, q, s.svc[q]);
    }
    if s.At(a).Calling? {
      assert Of(a) in s.svc[q].refs && ServiceOk(s.svc[q]);
    }
  }

  /** No message is stranded: a queue with messages in it is in the global list or held by an agent, and
      so is a queue that waits to be freed. */
  lemma NothingStranded(states: seq<State>, steps: seq<Step>, i: nat, q: Handle) returns (a: AgentId)
    requires IsRun(states, steps) && i < |states| && q in states[i].svc
    requires states[i].svc[q].contents != [] || (states[i].svc[q].release && !states[i].svc[q].freed)
    ensures q in states[i].global || q in Held(states[i].At(a))
  {
    RunKeeps(states, steps, i);
    var v := states[i].svc[q];
    assert ServiceOk(v);
    a := if v.owner.By? then v.owner.agent else 0;
    assert Linked(states[i].At(a), a, q, v);
  }

  /** Messages leave in the order in which they were pushed, each one once, and only those still waiting
      when the context is gone are dropped. */
  lemma NothingLost(states: seq<State>, steps: seq<Step>, i: nat, q: Handle)
    requires IsRun(states, steps) && i < |states| && q in states[i].svc
    ensures
      var v := states[i].svc[q];
      v.pushed == v.dispatched + v.dropped + v.contents && (v.dropped != [] ==> v.refs == {} && v.release) &&
      (v.freed ==> v.pushed == v.dispatched + v.dropped)
  {
    RunKeeps(states, steps, i);
    assert ServiceOk(states[i].svc[q]);
  }

  lemma {:induction false} RunGrows(states: seq<State>, steps: seq<Step>, i: nat, j: nat)
    requires IsRun(states, steps) && i <= j < |states|
    ensures Grows(states[i], states[j])
    decreases j - i
  {
    hide Apply, Inv, Enabled, Known;
    if i < j {
      RunKeeps(states, steps, i);
      StepKeeps(states[i], steps[i]);
      RunGrows(states, steps, i + 1, j);
    }
  }

  /** The queue whose fields a step reads or writes under its lock. */
  function Touched(s: State, t: Step): set<Handle> {
    match t
    case Launch(_, _) => {}
    case Retire(_, _) => {}
    case Send(_, _, _) => {}
    case PopGlobal(_) => if s.global == [] then {} else {s.global[0]}
    case Rotate(_) => if s.global == [] || s.At(t.a).Idle? then {} else {s.At(t.a).q, s.global[0]}
    case Release(_) => {}
    case RetireOwn(_) => {}
    case Report(_) => {}
    case _ => if s.At(t.a).Idle? then {} else {s.At(t.a).q}
  }

  /** No step touches a queue that has been freed. */
  lemma NothingFreedIsTouched(s: State, t: Step)
    requires Inv(s) && Enabled(s, t)
    ensures forall q | q in Touched(s, t) :: q in s.svc && !s.svc[q].freed
  {
    var a := t.a;
    assert Proper(s.At(a), s.svc.Keys);
    forall q | q in Touched(s, t)
      ensures q in s.svc && !s.svc[q].freed
    {
      assert q in s.svc;
      assert Linked(s.At(a), a, q, s.svc[q]) && ServiceOk(s.svc[q]);
    }
  }

  /** A queue is freed at most once in a run, by its only holder, after its context was deleted. */
  lemma FreedOnce(states: seq<State>, steps: seq<Step>, i: nat, j: nat)
    requires IsRun(states, steps) && i < j < |steps| && steps[i].Free? && steps[j].Free?
    ensures states[i].At(steps[i].a).q != states[j].At(steps[j].a).q
    ensures
      var q := states[i].At(steps[i].a).q;
      q in states[i].svc && states[i].svc[q].refs == {} && states[i].svc[q].release && states[i].svc[q].contents == []
  {
    var a, q := steps[i].a, states[i].At(steps[i].a).q;
    RunKeeps(states, steps, i);
    RunKeeps(states, steps, j);
    assert Proper(states[i].At(a), states[i].svc.Keys) && Linked(states[i].At(a), a, q, states[i].svc[q]);
    assert ServiceOk(states[i].svc[q]);
    StepKeeps(states[i], steps[i]);
    FreeFrees(states[i], steps[i]);
    hide Apply, Inv;
    RunGrows(states, steps, i + 1, j);
    NothingFreedIsTouched(states[j], steps[j]);
  }

  lemma FreeFrees(s: State, t: Step)
    requires Enabled(s, t) && Known(s, t) && t.Free?
    ensures var q := s.At(t.a).q; q in Apply(s, t).svc && Apply(s, t).svc[q].freed
  {
  }

  /** The assertions of the code: a queue is not in the global list when it is pushed there, and it is
      marked for release only once. */
  lemma AssertionsHold(states: seq<State>, steps: seq<Step>, i: nat)
    requires IsRun(states, steps) && i < |steps|
    ensures steps[i].MarkRelease? ==> var q := states[i].At(steps[i].a).q; q in states[i].svc && !states[i].svc[q].release
    ensures NoDuplicates(states[i + 1].global)
  {
    var s, t := states[i], steps[i];
    RunKeeps(states, steps, i);
    RunKeeps(states, steps, i + 1);
    assert Proper(s.At(t.a), s.svc.Keys);
    if t.MarkRelease? {
      var q := s.At(t.a).q;
      assert Linked(s.At(t.a), t.a, q, s.svc[q]) && ServiceOk(s.svc[q]);
    }
  }

  /** When all threads have come to rest, nothing is left over: every message was dispatched or dropped, and every
      service that can no longer be found was marked, emptied and freed. */
  lemma NothingLeaks(states: seq<State>, steps: seq<Step>, i: nat, q: Handle)
    requires IsRun(states, steps) && i < |states| && q in states[i].svc
    requires states[i].global == [] && forall a :: states[i].At(a).Idle?
    ensures
      var v := states[i].svc[q];
      v.contents == [] && v.pushed == v.dispatched + v.dropped && (v.registered <==> !v.freed) &&
      v.ref == if v.registered then 1 else 0
  {
    RunKeeps(states, steps, i);
    var s := states[i];
    var v := s.svc[q];
    assert ServiceOk(v) && q !in s.global;
    forall a
      ensures v.owner != By(a) && v.deleter != By(a) && Of(a) !in v.refs
    {
      assert Linked(s.At(a), a, q, v);
    }
    forall r: Ref
      ensures r in v.refs <==> r == Table && v.registered
    {
      if r.Of? {
        assert Of(r.agent) !in v.refs;
      }
    }
    assert v.refs == if v.registered then {Table} else {};
  }

  // ---- what the callbacks get

  /** A message of q was taken from its queue, and its callback has not returned. */
  predicate Handling(x: Agent, q: Handle) {
    (x.Counting? || x.Calling?) && x.q == q
  }

  /** What the callbacks of q have returned from, and the one that is running, are what was dispatched. */
  ghost predicate HandledOk(s: State, q: Handle, returned: seq<Message>) {
    if q in s.svc then
      (forall a | Handling(s.At(a), q) :: s.svc[q].dispatched == returned + [s.At(a).m]) &&
      ((forall a :: !Handling(s.At(a), q)) ==> s.svc[q].dispatched == returned)
    else returned == []
  }

  /** The messages of the callbacks of q that returned in the first n steps. */
  ghost function Returned(states: seq<State>, steps: seq<Step>, n: nat, q: Handle): seq<Message>
    requires n <= |steps| && |states| == |steps| + 1
  {
    if n == 0 then []
    else ReturnedNext(Returned(states, steps, n - 1, q), states[n - 1], steps[n - 1], q)
  }

  function ReturnedNext(returned: seq<Message>, s: State, t: Step, q: Handle): seq<Message> {
    if t.Return? && s.At(t.a).Calling? && s.At(t.a).q == q then returned + [s.At(t.a).m] else returned
  }

  /** Only one agent has a queue. */
  lemma OneHolder(s: State, a: AgentId, b: AgentId, q: Handle)
    requires Inv(s) && q in Held(s.At(a)) && q in Held(s.At(b))
    ensures a == b
  {
    assert Proper(s.At(a), s.svc.Keys);
    assert Linked(s.At(a), a, q, s.svc[q]) && Linked(s.At(b), b, q, s.svc[q]);
  }

  lemma HandlingHolds(x: Agent, q: Handle)
    ensures Handling(x, q) ==> q in Held(x)
  {
  }

  lemma HandledKeeps(s: State, t: Step, q: Handle, returned: seq<Message>)
    requires Inv(s) && Enabled(s, t) && Known(s, t) && HandledOk(s, q, returned)
    ensures HandledOk(Apply(s, t), q, ReturnedNext(returned, s, t, q))
  {
    hide Inv;
    if Handling(s.At(t.a), q) || (t.Take? && s.At(t.a).q == q) {
      HandlerMoves(s, t, q, returned);
    } else {
      OthersMove(s, t, q);
      var s' := Apply(s, t);
      forall b
        ensures Handling(s'.At(b), q) == Handling(s.At(b), q) && (Handling(s.At(b), q) ==> s'.At(b) == s.At(b) && q in s.svc)
      {
        HandledIsKnown(s, b, q);
      }
    }
  }

  lemma HandledIsKnown(s: State, a: AgentId, q: Handle)
    requires Inv(s)
    ensures Handling(s.At(a), q) ==> q in s.svc
  {
    assert Proper(s.At(a), s.svc.Keys);
  }

  /** The agent that has the queue takes a message, counts, calls or comes back. */
  lemma HandlerMoves(s: State, t: Step, q: Handle, returned: seq<Message>)
    requires Inv(s) && Enabled(s, t) && Known(s, t) && HandledOk(s, q, returned)
    requires Handling(s.At(t.a), q) || (t.Take? && s.At(t.a).q == q)
    ensures HandledOk(Apply(s, t), q, ReturnedNext(returned, s, t, q))
  {
    var s' := Apply(s, t);
    assert q in Held(s.At(t.a)) && Proper(s.At(t.a), s.svc.Keys);
    OthersAreStill(s, t);
    forall b | Handling(s.At(b), q)
      ensures b == t.a
    {
      HandlingHolds(s.At(b), q);
      OneHolder(s, t.a, b, q);
    }
    hide Inv, Apply;
    assert q in s.svc && s.At(t.a).q == q && (t.Take? || t.Count? || t.Return? || t.SetPriority?);
    forall b | Handling(s'.At(b), q)
      ensures b == t.a
    {
      assert b != t.a ==> s'.At(b) == s.At(b);
    }
    assert t.Take? ==> forall b :: !Handling(s.At(b), q);
    OneStep(s, t, q);
  }

  /** What the step of the agent that has the queue does with the message. */
  lemma OneStep(s: State, t: Step, q: Handle)
    requires (t.Take? || t.Count? || t.Return? || t.SetPriority?) && Enabled(s, t)
    requires Known(s, t) && q in s.svc && s.At(t.a).q == q
    ensures q in Apply(s, t).svc
    ensures
      var x, y, v, w := s.At(t.a), Apply(s, t).At(t.a), s.svc[q], Apply(s, t).svc[q];
      if t.Take? then
        if v.contents == [] then !Handling(y, q) && w.dispatched == v.dispatched
        else Handling(y, q) && w.dispatched == v.dispatched + [v.contents[0]] && y.m == v.contents[0]
      else
        w.dispatched == v.dispatched && if t.Return? then !Handling(y, q) else Handling(y, q) && y.m == x.m
  {
    match t
    case Take(a) => assert Apply(s, t) == TakeStep(s, a);
    case Count(a) => assert Apply(s, t) == CountStep(s, a);
    case Return(a) => assert Apply(s, t) == ReturnStep(s, a);
    case SetPriority(a, on) => assert Apply(s, t) == SetPriorityStep(s, a, on);
  }

  lemma OthersAreStill(s: State, t: Step)
    requires Enabled(s, t) && Known(s, t)
    ensures forall b | b != t.a :: Apply(s, t).At(b) == s.At(b)
  {
  }

  lemma OthersMove(s: State, t: Step, q: Handle)
    requires Enabled(s, t) && Known(s, t) && !Handling(s.At(t.a), q) && !(t.Take? && s.At(t.a).q == q)
    ensures !Handling(Apply(s, t).At(t.a), q) && forall b | b != t.a :: Apply(s, t).At(b) == s.At(b)
    ensures q in s.svc ==> q in Apply(s, t).svc && Apply(s, t).svc[q].dispatched == s.svc[q].dispatched
    ensures q !in s.svc && q in Apply(s, t).svc ==> Apply(s, t).svc[q].dispatched == []
    ensures !(t.Return? && s.At(t.a).Calling? && s.At(t.a).q == q)
  {
    OthersAreStill(s, t);
    NothingDispatched(s, t, q);
    if t.Take? || t.Count? || t.SetPriority? {
      HandlerStays(s, t, q);
    } else {
      NobodyTakes(s, t, q);
    }
  }

  lemma NothingDispatched(s: State, t: Step, q: Handle)
    requires Enabled(s, t) && Known(s, t) && !(t.Take? && s.At(t.a).q == q)
    ensures q in s.svc ==> q in Apply(s, t).svc && Apply(s, t).svc[q].dispatched == s.svc[q].dispatched
    ensures q !in s.svc && q in Apply(s, t).svc ==> Apply(s, t).svc[q].dispatched == []
  {
  }

  lemma HandlerStays(s: State, t: Step, q: Handle)
    requires Enabled(s, t) && Known(s, t) && (t.Take? || t.Count? || t.SetPriority?) && s.At(t.a).q != q
    ensures !Handling(Apply(s, t).At(t.a), q)
  {
  }

  lemma NobodyTakes(s: State, t: Step, q: Handle)
    requires Enabled(s, t) && Known(s, t) && !t.Take? && !t.Count? && !t.SetPriority?
    ensures !Handling(Apply(s, t).At(t.a), q)
  {
  }

  lemma {:induction false} RunHandles(states: seq<State>, steps: seq<Step>, n: nat, q: Handle)
    requires IsRun(states, steps) && n < |states|
    ensures HandledOk(states[n], q, Returned(states, steps, n, q))
  {
    hide Inv, Apply, Enabled, Known, Handling;
    if n > 0 {
      RunKeeps(states, steps, n - 1);
      StepKeeps(states[n - 1], steps[n - 1]);
      RunHandles(states, steps, n - 1, q);
      HandledKeeps(states[n - 1], steps[n - 1], q, Returned(states, steps, n - 1, q));
    } else {
      NobodyHandles(q);
    }
  }

  lemma NobodyHandles(q: Handle)
    ensures HandledOk(START, q, [])
  {
  }

  /** The callbacks of a service are given its messages in the order in which they were pushed, each one once: those
      that returned, and the one that is running, are what was dispatched. */
  lemma CallbacksInOrder(states: seq<State>, steps: seq<Step>, n: nat, q: Handle)
    requires IsRun(states, steps) && n < |states| && q in states[n].svc
    ensures
      var v := states[n].svc[q];
      var returned := Returned(states, steps, n, q);
      v.pushed == v.dispatched + v.dropped + v.contents &&
      (forall a | Handling(states[n].At(a), q) :: v.dispatched == returned + [states[n].At(a).m]) &&
      ((forall a :: !Handling(states[n].At(a), q)) ==> v.dispatched == returned)
  {
    RunHandles(states, steps, n, q);
    NothingLost(states, steps, n, q);
  }

  // ---- what the senders gave

  datatype Given = Nothing | Given(q: Handle, m: Message)

  /** What agent a is about to push, as its last step before the n-th gave it. */
  function LastGiven(steps: seq<Step>, n: nat, a: AgentId): Given
    requires n <= |steps|
  {
    if n == 0 then Nothing
    else if steps[n - 1].a != a then LastGiven(steps, n - 1, a)
    else if steps[n - 1].Send? then Given(steps[n - 1].q, steps[n - 1].m)
    else Nothing
  }

  /** The messages that were sent to q, in the order in which their senders pushed them. It depends on the steps alone. */
  function SentTo(steps: seq<Step>, n: nat, q: Handle): seq<Message>
    requires n <= |steps|
  {
    if n == 0 then []
    else
      var rest := SentTo(steps, n - 1, q);
      var given := LastGiven(steps, n - 1, steps[n - 1].a);
      if steps[n - 1].Push? && given.Given? && given.q == q then rest + [given.m] else rest
  }

  lemma {:induction false} SendersGave(states: seq<State>, steps: seq<Step>, n: nat, a: AgentId)
    requires IsRun(states, steps) && n < |states|
    ensures states[n].At(a).Sending? ==> LastGiven(steps, n, a) == Given(states[n].At(a).q, states[n].At(a).m)
  {
    if n > 0 {
      hide Inv, Apply, Enabled, Known, IsRun;
      RunSteps(states, steps, n - 1);
      SendersGave(states, steps, n - 1, a);
      SendingMeansGiven(states[n - 1], steps[n - 1], a);
    }
  }

  lemma SendingMeansGiven(s: State, t: Step, a: AgentId)
    requires Enabled(s, t) && Known(s, t)
    ensures
      var x := Apply(s, t).At(a);
      x.Sending? ==> if t.a == a then t.Send? && x.q == t.q && x.m == t.m else s.At(a) == x
  {
  }

  /** What is pushed onto a queue is what its senders sent, in the order of their pushes. */
  lemma {:induction false} PushedAsSent(states: seq<State>, steps: seq<Step>, n: nat, q: Handle)
    requires IsRun(states, steps) && n < |states|
    ensures SentTo(steps, n, q) == if q in states[n].svc then states[n].svc[q].pushed else []
  {
    if n > 0 {
      hide Inv, Apply, Enabled, Known, LastGiven;
      var s, t := states[n - 1], steps[n - 1];
      RunKeeps(states, steps, n - 1);
      StepKeeps(s, t);
      PushedAsSent(states, steps, n - 1, q);
      SendersGave(states, steps, n - 1, t.a);
      OnlyPushesPush(s, t, q);
    }
  }

  lemma OnlyPushesPush(s: State, t: Step, q: Handle)
    requires Inv(s) && Enabled(s, t) && Known(s, t)
    ensures t.Push? ==> s.At(t.a).Sending?
    ensures
      var before := if q in s.svc then s.svc[q].pushed else [];
      var after := if q in Apply(s, t).svc then Apply(s, t).svc[q].pushed else [];
      after == if t.Push? && s.At(t.a).q == q then before + [s.At(t.a).m] else before
  {
    if t.Push? {
      assert Apply(s, t) == PushStep(s, t.a);
    } else {
      hide Inv;
      NothingPushed(s, t, q);
    }
  }

  lemma NothingPushed(s: State, t: Step, q: Handle)
    requires Enabled(s, t) && Known(s, t) && !t.Push?
    ensures q in s.svc ==> q in Apply(s, t).svc && Apply(s, t).svc[q].pushed == s.svc[q].pushed
    ensures q !in s.svc && q in Apply(s, t).svc ==> Apply(s, t).svc[q].pushed == []
  {
  }

  // ---- what a service and its creator did last

  /** Whether a service asked for priority the last time that it set it. */
  function AskedPriority(states: seq<State>, steps: seq<Step>, n: nat, q: Handle): bool
    requires n <= |steps| < |states|
  {
    if n == 0 then false
    else
      var x := states[n - 1].At(steps[n - 1].a);
      if steps[n - 1].SetPriority? && x.Calling? && x.q == q then steps[n - 1].on
      else AskedPriority(states, steps, n - 1, q)
  }

  lemma PriorityMoves(s: State, t: Step, q: Handle)
    requires Enabled(s, t) && Known(s, t)
    ensures
      var before := q in s.svc && s.svc[q].priority;
      var after := q in Apply(s, t).svc && Apply(s, t).svc[q].priority;
      after == if t.SetPriority? && s.At(t.a).q == q then t.on else before
  {
    if t.SetPriority? {
      assert Apply(s, t) == SetPriorityStep(s, t.a, t.on);
    } else {
      PriorityStays(s, t, q);
    }
  }

  lemma PriorityStays(s: State, t: Step, q: Handle)
    requires Enabled(s, t) && Known(s, t) && !t.SetPriority?
    ensures q in Apply(s, t).svc ==> if q in s.svc then Apply(s, t).svc[q].priority == s.svc[q].priority
                                     else !Apply(s, t).svc[q].priority
    ensures q in s.svc ==> q in Apply(s, t).svc
  {
  }

  /** A service has priority if and only if it asked for it last; a new one has none. */
  lemma {:induction false} PriorityAsAsked(states: seq<State>, steps: seq<Step>, n: nat, q: Handle)
    requires IsRun(states, steps) && n < |states|
    ensures q in states[n].svc && states[n].svc[q].priority <==> AskedPriority(states, steps, n, q)
  {
    if n > 0 {
      hide Inv, Apply, Known;
      RunKeeps(states, steps, n - 1);
      StepKeeps(states[n - 1], steps[n - 1]);
      PriorityAsAsked(states, steps, n - 1, q);
      PriorityMoves(states[n - 1], steps[n - 1], q);
    }
  }

  /** Whether the last step of an agent was to mark a context initialised. */
  function JustInitialised(steps: seq<Step>, n: nat, a: AgentId): bool
    requires n <= |steps|
  {
    n > 0 && if steps[n - 1].a == a then steps[n - 1].Initialise? else JustInitialised(steps, n - 1, a)
  }

  lemma PublishingMoves(s: State, t: Step, a: AgentId)
    requires Enabled(s, t) && Known(s, t)
    ensures
      var x := Apply(s, t).At(a);
      x.Publishing? ==> if t.a == a then x.alive == t.Initialise? else s.At(a) == x
  {
  }

  lemma {:induction false} AliveWhenInitialised(states: seq<State>, steps: seq<Step>, n: nat, a: AgentId)
    requires IsRun(states, steps) && n < |states|
    ensures states[n].At(a).Publishing? ==> states[n].At(a).alive == JustInitialised(steps, n, a)
  {
    if n > 0 {
      hide Inv, Apply, Enabled, Known, IsRun;
      RunSteps(states, steps, n - 1);
      AliveWhenInitialised(states, steps, n - 1, a);
      PublishingMoves(states[n - 1], steps[n - 1], a);
    }
  }

  /** A creator reports a launch exactly when its context outlived its own reference. */
  lemma ReportsTheLiving(states: seq<State>, steps: seq<Step>, n: nat)
    requires IsRun(states, steps) && n < |steps| && steps[n].Announce?
    ensures
      var a := steps[n].a;
      states[n + 1].At(a) == if JustInitialised(steps, n, a) then Reporting(states[n].At(a).q) else Idle
  {
    hide Inv;
    RunKeeps(states, steps, n);
    StepKeeps(states[n], steps[n]);
    AliveWhenInitialised(states, steps, n, steps[n].a);
    assert states[n + 1] == AnnounceStep(states[n], steps[n].a);
  }

  // ---- nobody is stuck

  /** What an agent that has begun something goes on with. */
  function NextStep(x: Agent, a: AgentId): Step
    requires !x.Idle?
  {
    match x
    case Creating(_) => InitDone(a, true)
    case Initialising(_) => Initialise(a)
    case Publishing(_, _) => Announce(a)
    case Reporting(_) => Report(a)
    case Unregistering(_) => RetireOwn(a)
    case ReleasingQueue(_) => ReleaseQueue(a)
    case Dropping(_) => Drop(a)
    case Freeing(_) => Free(a)
    case Sending(_, _) => Push(a)
    case Releasing(_, _) => Release(a)
    case Deleting(_, _) => MarkRelease(a)
    case Holding(_) => Grab(a)
    case Looping(_, i, n, _) => if i < n then Take(a) else Rotate(a)
    case Counting(_, _, _, _, _) => Count(a)
    case Calling(_, _, _, _, _) => Return(a)
    case Rotating(_, _) => PutBack(a)
  }

  /** In no run does an agent wait for another: whatever it has begun, its next step is one that it may take. */
  lemma NeverStuck(states: seq<State>, steps: seq<Step>, n: nat, a: AgentId)
    requires IsRun(states, steps) && n < |states|
    ensures !states[n].At(a).Idle? ==> exists t: Step :: t.a == a && Enabled(states[n], t) && Known(states[n], t)
    ensures states[n].At(a).Idle? && states[n].global != [] ==>
              Enabled(states[n], PopGlobal(a)) && Known(states[n], PopGlobal(a))
  {
    var s := states[n];
    RunKeeps(states, steps, n);
    assert Proper(s.At(a), s.svc.Keys);
    if !s.At(a).Idle? {
      MayGoOn(s, a);
    }
  }

  lemma MayGoOn(s: State, a: AgentId)
    requires Inv(s) && !s.At(a).Idle?
    ensures Enabled(s, NextStep(s.At(a), a)) && Known(s, NextStep(s.At(a), a)) && NextStep(s.At(a), a).a == a
  {
    assert Proper(s.At(a), s.svc.Keys);
  }

  // ---- how long a worker stays with a queue

  /** What agent a has done since it last grabbed a context: how many callbacks returned, how long the queue was when it
      was first counted (-1 before that), and whether the service had priority. */
  datatype Round = Round(turns: nat, first: int, priority: bool)

  function RoundNext(r: Round, s: State, t: Step, a: AgentId): Round
    requires Known(s, t)
  {
    if t.a != a || s.At(a).Idle? then r
    else
      match t
      case Grab(_) => Round(0, -1, s.svc[s.At(a).q].priority)
      case Return(_) => r.(turns := r.turns + 1)
      case Count(_) => if r.first < 0 then r.(first := |s.svc[s.At(a).q].contents|) else r
      case _ => r
  }

  ghost function RoundOf(states: seq<State>, steps: seq<Step>, n: nat, a: AgentId): Round
    requires IsRun(states, steps) && n <= |steps|
  {
    if n == 0 then Round(0, -1, false)
    else
      RunKeeps(states, steps, n - 1);
      StepKeeps(states[n - 1], steps[n - 1]);
      RoundNext(RoundOf(states, steps, n - 1, a), states[n - 1], steps[n - 1], a)
  }

  /** The counters of the dispatch loop. */
  predicate InRound(x: Agent, r: Round) {
    x.Looping? || x.Counting? || x.Calling? ==>
      x.i == r.turns && 0 < x.n && (if x.Looping? then x.i <= x.n else x.i < x.n) &&
      (!r.priority ==>
        if r.first < 0 then x.i == 0 && x.n == 1 && x.max == 1 && !x.Calling?
        else x.n == 1 + r.first && x.max == 0)
  }

  lemma RoundKeeps(s: State, t: Step, a: AgentId, r: Round)
    requires Enabled(s, t) && Known(s, t) && InRound(s.At(a), r)
    ensures InRound(Apply(s, t).At(a), RoundNext(r, s, t, a))
  {
    if t.a != a {
      OthersAreStill(s, t);
    } else if t.Grab? || t.Take? || t.Count? || t.Return? || t.SetPriority? {
      LoopMoves(s, t, r);
    } else {
      hide InRound;
      LoopLeft(s, t);
      NotInRound(Apply(s, t).At(a), RoundNext(r, s, t, a));
    }
  }

  lemma NotInRound(x: Agent, r: Round)
    requires !x.Looping? && !x.Counting? && !x.Calling?
    ensures InRound(x, r)
  {
  }

  lemma LoopLeft(s: State, t: Step)
    requires Enabled(s, t) && Known(s, t) && !t.Grab? && !t.Take? && !t.Count? && !t.Return? && !t.SetPriority?
    ensures
      var x := Apply(s, t).At(t.a);
      !x.Looping? && !x.Counting? && !x.Calling?
  {
  }

  lemma LoopMoves(s: State, t: Step, r: Round)
    requires Enabled(s, t) && Known(s, t) && InRound(s.At(t.a), r)
    requires t.Grab? || t.Take? || t.Count? || t.Return? || t.SetPriority?
    ensures InRound(Apply(s, t).At(t.a), RoundNext(r, s, t, t.a))
  {
    match t
    case Grab(a) => assert Apply(s, t) == GrabStep(s, a);
    case Take(a) => assert Apply(s, t) == TakeStep(s, a);
    case Count(a) => assert Apply(s, t) == CountStep(s, a);
    case Return(a) => assert Apply(s, t) == ReturnStep(s, a);
    case SetPriority(a, on) => assert Apply(s, t) == SetPriorityStep(s, a, on);
  }

  lemma {:induction false} RunsInRounds(states: seq<State>, steps: seq<Step>, n: nat, a: AgentId)
    requires IsRun(states, steps) && n <= |steps|
    ensures InRound(states[n].At(a), RoundOf(states, steps, n, a))
  {
    if n > 0 {
      hide Inv, Apply, Enabled, Known, IsRun, InRound, RoundNext;
      RunSteps(states, steps, n - 1);
      RunsInRounds(states, steps, n - 1, a);
      RoundKeeps(states[n - 1], steps[n - 1], a, RoundOf(states, steps, n - 1, a));
    }
  }

  /** A worker turns to the next queue after one message of a service, and those that were waiting behind it then; it
      stays longer only with a service that has priority. */
  lemma RoundsAreFair(states: seq<State>, steps: seq<Step>, n: nat)
    requires IsRun(states, steps) && n < |steps| && steps[n].Rotate?
    ensures
      var r := RoundOf(states, steps, n, steps[n].a);
      r.turns > 0 && (!r.priority ==> r.first >= 0 && r.turns == 1 + r.first)
  {
    RunsInRounds(states, steps, n, steps[n].a);
  }

  // ---- how long a queue waits in the global list

  /** What one step does to the place of a listed queue: it moves up when the list loses its first entry, back when a
      queue with priority comes in, and stays when another comes in. */
  function PlaceNext(k: int, s: State, t: Step, s': State): int {
    if |s'.global| < |s.global| then k - 1
    else if |s'.global| > |s.global| && Overtakes(s, t) then k + 1
    else k
  }

  /** A queue that its sender or its worker puts into the list goes first if its service has priority. */
  predicate Overtakes(s: State, t: Step) {
    var x := s.At(t.a);
    (t.Push? || t.PutBack?) && !x.Idle? && x.q in s.svc && s.svc[x.q].priority
  }

  /** Where a queue with place k at moment i is at moment j, as far as it is still listed. */
  function PlaceAt(states: seq<State>, steps: seq<Step>, k: nat, i: nat, j: nat): int
    requires i <= j < |states| == |steps| + 1
  {
    if i == j then k else PlaceNext(PlaceAt(states, steps, k, i, j - 1), states[j - 1], steps[j - 1], states[j])
  }

  predicate AtPlace(s: State, q: Handle, k: int) {
    0 <= k < |s.global| && s.global[k] == q
  }

  /** The list loses its first entry, or gains one at one of its ends, or stays. */
  ghost predicate ListMoves(g: seq<Handle>, h: seq<Handle>, first: bool) {
    h == g || exists q :: h == if first then [q] + g else g + [q]
  }

  lemma StepMovesList(s: State, t: Step)
    requires Enabled(s, t) && Known(s, t)
    ensures
      var g, h := s.global, Apply(s, t).global;
      if t.PopGlobal? || t.Rotate? then h == (if g == [] then [] else g[1..]) else ListMoves(g, h, Overtakes(s, t))
  {
  }

  lemma PlaceMoves(s: State, t: Step, q: Handle, k: nat)
    requires Inv(s) && Enabled(s, t) && Known(s, t) && AtPlace(s, q, k)
    ensures q in Apply(s, t).global ==> AtPlace(Apply(s, t), q, PlaceNext(k, s, t, Apply(s, t)))
    ensures q !in Apply(s, t).global ==> k == 0 && (t.PopGlobal? || t.Rotate?)
  {
    hide Apply, Enabled, Known, Overtakes, ServiceOk, Proper, Linked;
    StepMovesList(s, t);
  }

  /** A listed queue waits for those before it, and for queues with priority that come in meanwhile: for nothing else.
      It leaves the list only when its turn has come. */
  lemma {:induction false} InTurn(states: seq<State>, steps: seq<Step>, q: Handle, k: nat, i: nat, j: nat)
    requires IsRun(states, steps) && i <= j < |states| && AtPlace(states[i], q, k)
    requires forall n | i <= n < j :: q in states[n].global
    ensures
      if q in states[j].global then AtPlace(states[j], q, PlaceAt(states, steps, k, i, j))
      else i < j && PlaceAt(states, steps, k, i, j - 1) == 0
  {
    if i < j {
      hide Inv, Apply, Enabled, Known;
      InTurn(states, steps, q, k, i, j - 1);
      RunKeeps(states, steps, j - 1);
      StepKeeps(states[j - 1], steps[j - 1]);
      PlaceMoves(states[j - 1], steps[j - 1], q, PlaceAt(states, steps, k, i, j - 1));
    }
  }

  // ---- contexts

  /** The context whose fields a step reads or writes, if there is one. The step that deletes a context is left aside. */
  function Contexts(s: State, t: Step): set<Handle>
    requires Known(s, t)
  {
    var x := s.At(t.a);
    match t
    case Retire(_, q) => {q}
    case Send(_, q, _) => {q}
    case Launch(_, _) => {}
    case PopGlobal(_) => {}
    case MarkRelease(_) => {}
    case Announce(_) => {}
    case ReleaseQueue(_) => {}
    case Drop(_) => {}
    case Free(_) => {}
    case RetireOwn(_) => if !x.Idle? && s.svc[x.q].registered then {x.q} else {}
    case Grab(_) => if !x.Idle? && s.svc[x.q].registered then {x.q} else {}
    case _ => if x.Idle? then {} else {x.q}
  }

  /** Somebody, or the handle table, has a reference to the context. */
  ghost predicate Referred(s: State, q: Handle)
    requires q in s.svc
  {
    s.svc[q].registered || exists a :: q in Refers(s.At(a))
  }

  /** A context is touched only while there are references to it, except by its creator, who has released its own. */
  lemma NothingDeletedIsTouched(s: State, t: Step)
    requires Inv(s) && Enabled(s, t)
    ensures Known(s, t) && Contexts(s, t) <= s.svc.Keys
    ensures forall q | q in Contexts(s, t) :: s.svc[q].refs != {} <==> Referred(s, q)
    ensures !t.Initialise? && !t.Report? ==> forall q | q in Contexts(s, t) :: s.svc[q].refs != {}
    ensures t.MarkRelease? ==>
              var v := s.svc[s.At(t.a).q]; v.refs == {} && v.deleter == By(t.a) && !v.release
  {
    hide SameElsewhere, SameForOthers, ListStep, Extends;
    StepsAreKnown(s, t);
    var x := s.At(t.a);
    assert Proper(x, s.svc.Keys);
    forall q | q in Contexts(s, t)
      ensures q in s.svc && (s.svc[q].refs != {} <==> Referred(s, q))
      ensures !t.Initialise? && !t.Report? ==> s.svc[q].refs != {}
    {
      assert Linked(x, t.a, q, s.svc[q]) && ServiceOk(s.svc[q]);
      ReferredHasRefs(s, q);
    }
    if t.MarkRelease? {
      assert Linked(x, t.a, x.q, s.svc[x.q]) && ServiceOk(s.svc[x.q]);
    }
  }

  lemma ReferredHasRefs(s: State, q: Handle)
    requires Inv(s) && q in s.svc
    ensures s.svc[q].refs != {} <==> Referred(s, q)
  {
    var v := s.svc[q];
    assert ServiceOk(v);
    if r :| r in v.refs && r.Of? {
      assert Linked(s.At(r.agent), r.agent, q, v);
      assert q in Refers(s.At(r.agent));
    }
    if a :| q in Refers(s.At(a)) {
      assert Linked(s.At(a), a, q, v);
    }
  }

  /** A run goes on with any step that some thread may take. */
  lemma RunGoesOn(states: seq<State>, steps: seq<Step>, t: Step) returns (more: seq<State>, after: seq<Step>, s: State)
    requires IsRun(states, steps) && Enabled(states[|steps|], t)
    ensures Known(states[|steps|], t) && IsRun(more, after) && |after| == |steps| + 1
    ensures s == more[|after|] == Apply(states[|steps|], t)
  {
    hide Inv, Apply, Enabled, Known;
    RunKeeps(states, steps, |steps|);
    StepKeeps(states[|steps|], t);
    s := Apply(states[|steps|], t);
    more, after := states + [s], steps + [t];
  }

  lemma RunBegins()
    ensures IsRun([START], [])
  {
  }

  /** The creator has released its reference, and is about to mark the context as initialised. */
  lemma CreatorReleases() returns (states: seq<State>, steps: seq<Step>, s: State)
    ensures IsRun(states, steps) && s == states[|steps|] && s.At(0) == Initialising(0) && s.At(1) == Idle
    ensures 0 in s.svc && s.global == [] && s.svc[0].registered && s.svc[0].inGlobal && !s.svc[0].release
    ensures s.svc[0].ref == 1 && s.svc[0].refs == {Table}
  {
    hide IsRun;
    RunBegins();
    states, steps, s := RunGoesOn([START], [], Launch(0, 0));
    states, steps, s := RunGoesOn(states, steps, InitDone(0, true));
    states, steps, s := RunGoesOn(states, steps, Release(0));
  }

  /** A run in which the handle is retired before the creator marks the context, which is deleted by then. */
  lemma CreatorIsLate() returns (states: seq<State>, steps: seq<Step>, s: State)
    ensures IsRun(states, steps) && s == states[|steps|] && 0 in s.svc && s.svc[0].release && s.svc[0].refs == {}
    ensures Enabled(s, Initialise(0)) && Known(s, Initialise(0)) && Contexts(s, Initialise(0)) == {0}
  {
    hide IsRun;
    states, steps, s := CreatorReleases();
    states, steps, s := RunGoesOn(states, steps, Retire(1, 0));
    states, steps, s := RunGoesOn(states, steps, Release(1));
    states, steps, s := RunGoesOn(states, steps, MarkRelease(1));
  }
}
