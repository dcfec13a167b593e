/**
 * The forward queue of a publisher route: DDS callbacks push, one thread pops, and the oldest samples
 * are evicted beyond a limit or a byte budget.
 */
module FwdQueue {
  import opened Wrappers

  type Payload = seq<bv8>

  datatype Cmd = Msg(payload: Payload, volatile: bool) | Stop

  const FWD_QUEUE_SIZE: nat := 256
  const FWD_QUEUE_MAX: nat := 4096
  const FWD_QUEUE_BYTES: nat := 0x100_0000

  function Len(c: Cmd): nat {
    if c.Msg? then |c.payload| else 0
  }

  function Bytes(q: seq<Cmd>): nat {
    if q == [] then 0 else Len(q[0]) + Bytes(q[1..])
  }

  lemma {:induction false} BytesConcat(a: seq<Cmd>, b: seq<Cmd>)
    ensures Bytes(a + b) == Bytes(a) + Bytes(b)
    decreases a
  {
    if a == [] {
      assert a + b == b;
    } else {
      assert (a + b)[1..] == a[1..] + b && (a + b)[0] == a[0];
      BytesConcat(a[1..], b);
    }
  }

  /** `queue_limit_for`: as much as the cache holds, within bounds. None stands for an unbounded cache. */
  function QueueLimit(cache: Option<nat>): (limit: nat)
    ensures FWD_QUEUE_SIZE <= limit <= FWD_QUEUE_MAX
    ensures cache.Some? && FWD_QUEUE_SIZE <= cache.value <= FWD_QUEUE_MAX ==> limit == cache.value
    ensures cache.Some? && cache.value < FWD_QUEUE_SIZE ==> limit == FWD_QUEUE_SIZE
    ensures cache.None? || cache.value > FWD_QUEUE_MAX ==> limit == FWD_QUEUE_MAX
  {
    var n := if cache.Some? && cache.value < FWD_QUEUE_MAX then cache.value else FWD_QUEUE_MAX;
    if n > FWD_QUEUE_SIZE then n else FWD_QUEUE_SIZE
  }

  // ---- A push nobody interrupts -----------------------------------------------------------

  /** The queue takes `len` more bytes without exceeding limit or budget; an empty one takes a sample of any size. */
  predicate Fits(q: seq<Cmd>, limit: nat, len: nat) {
    |q| < limit && (q == [] || Bytes(q) + len <= FWD_QUEUE_BYTES)
  }

  /**
   * `k` is the number of oldest elements to evict: nothing longer than the rest fits, and the rest does,
   * or is empty.
   */
  predicate EvictsLeast(q: seq<Cmd>, limit: nat, len: nat, k: nat) {
    k <= |q| && (Fits(q[k..], limit, len) || k == |q|) && forall j | 0 <= j < k :: !Fits(q[j..], limit, len)
  }

  class FwdQueue {
    var queue: seq<Cmd>
    var limit: nat
    var bytes: int
    var dropped: nat

    ghost predicate Valid()
      reads this
    {
      |queue| <= FWD_QUEUE_MAX && bytes == Bytes(queue)
    }

    constructor (limit: nat)
      ensures Valid() && queue == [] && this.limit == limit && dropped == 0
    {
      queue, this.limit, bytes, dropped := [], limit, 0, 0;
    }

    method Pop() returns (cmd: Option<Cmd>)
      requires Valid()
      modifies `queue, `bytes
      ensures Valid()
      ensures if old(queue) == [] then cmd.None? && queue == []
              else cmd == Some(old(queue)[0]) && queue == old(queue)[1..]
    {
      if queue == [] { return None; }
      cmd := Some(queue[0]);
      queue := queue[1..];
      if cmd.value.Msg? {
        bytes := bytes - |cmd.value.payload|;
      }
    }

    /**
     * A push keeps the longest suffix of the queue that fits together with the new sample, which only a
     * limit beyond the channel's capacity can refuse.
     */
    method Push(payload: Payload, volatile: bool) returns (evicted: nat, ghost k: nat)
      requires Valid()
      modifies `queue, `bytes, `dropped
      ensures Valid() && EvictsLeast(old(queue), limit, |payload|, k)
      ensures if |old(queue)| - k < FWD_QUEUE_MAX then evicted == k
              && queue == old(queue)[k..] + [Msg(payload, volatile)]
              else evicted == k + 1 && queue == old(queue)[k..]
      ensures dropped == old(dropped) + evicted
      ensures 0 < limit <= FWD_QUEUE_MAX ==> evicted == k && Fits(old(queue)[k..], limit, |payload|)
    {
      var len := |payload|;
      evicted := 0;
      while |queue| >= limit || (queue != [] && bytes + len > FWD_QUEUE_BYTES)
        invariant Valid() && evicted <= |old(queue)| && queue == old(queue)[evicted..] && dropped == old(dropped)
        invariant forall j | 0 <= j < evicted :: !Fits(old(queue)[j..], limit, len)
        decreases |queue|
      {
        var cmd := Pop();
        if cmd.None? { break; }
        evicted := evicted + 1;
      }
      k := evicted;
      bytes := bytes + len;
      BytesConcat(queue, [Msg(payload, volatile)]);
      if |queue| < FWD_QUEUE_MAX {
        queue := queue + [Msg(payload, volatile)];
        assert Bytes([Msg(payload, volatile)]) == len + Bytes([]);
      } else {
        bytes := bytes - len;
        evicted := evicted + 1;
      }
      dropped := dropped + evicted;
    }
  }

  // ---- Every interleaving -----------------------------------------------------------------

  /**
   * Where a thread is between its atomic operations. A pusher is `Checking` between evictions, `Taken`
   * with a sample out of the channel whose bytes still count, `Added` with its own bytes counted but
   * not sent, `Refused` with a full channel; the forwarder only ever takes. `evicted` is what the thread
   * will add to `dropped`.
   */
  datatype Thread =
    | Idle
    | Checking(cmd: Cmd, evicted: nat)
    | Taken(cmd: Cmd, taken: Cmd, evicted: nat)
    | Added(cmd: Cmd, evicted: nat)
    | Refused(cmd: Cmd, evicted: nat)
    | Reporting(evicted: nat)
    | Received(taken: Cmd)

  /**
   * The shared state, and what has happened so far: everything sent into the channel, everything taken
   * out of it, in order and with whether the forwarder took it, and how many messages were pushed.
   */
  datatype State = State(queue: seq<Cmd>, limit: nat, bytes: int, dropped: nat, threads: seq<Thread>,
                         sent: seq<Cmd>, taken: seq<(Cmd, bool)>, pushed: nat)

  datatype Step =
    | Begin(i: nat, payload: Payload, volatile: bool)   // a callback calls push
    | Evict(i: nat)                                     // the pusher takes the oldest element
    | GiveUp(i: nat)                                    // the pusher finds nothing to evict, or evicted enough
    | Subtract(i: nat)                                  // bytes are given back
    | Send(i: nat)                                      // try_send
    | Report(i: nat)                                    // dropped is increased
    | Receive(i: nat)                                   // the forwarder takes the oldest element
    | SendStop                                          // the route goes
    | SetLimit(limit: nat)                              // the route is rebuilt

  /** The step is possible: threads take any turn, and whatever a pusher read before may be outdated. */
  predicate Enabled(s: State, step: Step) {
    match step
    case Begin(i, _, _) => i < |s.threads| && s.threads[i].Idle?
    case Evict(i) => i < |s.threads| && s.threads[i].Checking? && s.queue != []
    case GiveUp(i) => i < |s.threads| && s.threads[i].Checking?
    case Subtract(i) => i < |s.threads| && (s.threads[i].Taken? || s.threads[i].Refused? || s.threads[i].Received?)
    case Send(i) => i < |s.threads| && s.threads[i].Added?
    case Report(i) => i < |s.threads| && s.threads[i].Reporting?
    case Receive(i) => i < |s.threads| && s.threads[i].Idle? && s.queue != []
    case SendStop => true
    case SetLimit(_) => true
  }

  function Next(s: State, step: Step): State
    requires Enabled(s, step)
  {
    match step
    case Begin(i, payload, volatile) =>
      s.(threads := s.threads[i := Checking(Msg(payload, volatile), 0)], pushed := s.pushed + 1)
    case Evict(i) =>
      var t := s.threads[i];
      s.(queue := s.queue[1..], taken := s.taken + [(s.queue[0], false)],
         threads := s.threads[i := Taken(t.cmd, s.queue[0], t.evicted + 1)])
    case GiveUp(i) =>
      var t := s.threads[i];
      s.(bytes := s.bytes + Len(t.cmd), threads := s.threads[i := Added(t.cmd, t.evicted)])
    case Subtract(i) =>
      var t := s.threads[i];
      (match t
       case Taken(cmd, taken, evicted) =>
         s.(bytes := s.bytes - Len(taken), threads := s.threads[i := Checking(cmd, evicted)])
       case Refused(cmd, evicted) =>
         s.(bytes := s.bytes - Len(cmd), threads := s.threads[i := Reporting(evicted + 1)])
       case Received(taken) => s.(bytes := s.bytes - Len(taken), threads := s.threads[i := Idle]))
    case Send(i) =>
      var t := s.threads[i];
      if |s.queue| < FWD_QUEUE_MAX then
        s.(queue := s.queue + [t.cmd], sent := s.sent + [t.cmd], threads := s.threads[i := Reporting(t.evicted)])
      else s.(threads := s.threads[i := Refused(t.cmd, t.evicted)])
    case Report(i) =>
      s.(dropped := s.dropped + s.threads[i].evicted, threads := s.threads[i := Idle])
    case Receive(i) =>
      s.(queue := s.queue[1..], taken := s.taken + [(s.queue[0], true)],
          threads := s.threads[i := Received(s.queue[0])])
    case SendStop =>
      if |s.queue| < FWD_QUEUE_MAX then s.(queue := s.queue + [Stop], sent := s.sent + [Stop]) else s
    case SetLimit(limit) => s.(limit := limit)
  }

  /** Bytes a thread has counted that are not in the channel. */
  function InFlight(t: Thread): nat {
    match t
    case Taken(_, taken, _) => Len(taken)
    case Added(cmd, _) => Len(cmd)
    case Refused(cmd, _) => Len(cmd)
    case Received(taken) => Len(taken)
    case _ => 0
  }

  /** What a thread will add to `dropped` for elements it took out. */
  function Unreported(t: Thread): nat {
    match t
    case Checking(_, evicted) => evicted
    case Taken(_, _, evicted) => evicted
    case Added(_, evicted) => evicted
    case Refused(_, evicted) => evicted
    case Reporting(evicted) => evicted
    case _ => 0
  }

  /** Messages being pushed that are not in the channel yet, nor given up. */
  function OnTheWay(t: Thread): nat {
    if t.Checking? || t.Taken? || t.Added? || t.Refused? then 1 else 0
  }

  function Total(ts: seq<Thread>, f: Thread -> nat): nat {
    if ts == [] then 0 else f(ts[0]) + Total(ts[1..], f)
  }

  lemma {:induction false} TotalUpdate(ts: seq<Thread>, f: Thread -> nat, i: nat, t: Thread)
    requires i < |ts|
    ensures Total(ts[i := t], f) == Total(ts, f) - f(ts[i]) + f(t) && f(ts[i]) <= Total(ts, f)
  {
    if i == 0 {
      assert ts[0 := t][1..] == ts[1..];
    } else {
      assert ts[i := t][1..] == ts[1..][i - 1 := t];
      TotalUpdate(ts[1..], f, i - 1, t);
    }
  }

  function Forwarded(taken: seq<(Cmd, bool)>): seq<Cmd> {
    if taken == [] then []
    else
      var before := Forwarded(taken[..|taken| - 1]);
      if taken[|taken| - 1].1 then before + [taken[|taken| - 1].0] else before
  }

  function Stops(cmds: seq<Cmd>): nat {
    if cmds == [] then 0 else Stops(cmds[..|cmds| - 1]) + if cmds[|cmds| - 1].Stop? then 1 else 0
  }

  function Commands(taken: seq<(Cmd, bool)>): seq<Cmd> {
    seq(|taken|, i requires 0 <= i < |taken| => taken[i].0)
  }

  /**
   * `bytes` counts what is queued and what is in flight; what left the channel, followed by what is in
   * it, is what was sent, in that order; and every message pushed or Stop sent is forwarded, dropped,
   * queued, or still on its way.
   */
  ghost predicate Inv(s: State) {
    s.bytes == Bytes(s.queue) + Total(s.threads, InFlight)
    && s.sent == Commands(s.taken) + s.queue
    && s.pushed + Stops(s.sent)
        == |Forwarded(s.taken)| + s.dropped + Total(s.threads, Unreported) + |s.queue| + Total(s.threads, OnTheWay)
    && |s.queue| <= FWD_QUEUE_MAX
  }

  lemma TakeOne(q: seq<Cmd>, taken: seq<(Cmd, bool)>, forwarder: bool)
    requires q != []
    ensures Bytes(q) == Len(q[0]) + Bytes(q[1..])
    ensures Commands(taken + [(q[0], forwarder)]) + q[1..] == Commands(taken) + q
    ensures Forwarded(taken + [(q[0], forwarder)]) == if forwarder then Forwarded(taken) + [q[0]] else Forwarded(taken)
  {
  }

  lemma SendOne(q: seq<Cmd>, sent: seq<Cmd>, cmd: Cmd)
    ensures Bytes(q + [cmd]) == Bytes(q) + Len(cmd)
    ensures Stops(sent + [cmd]) == Stops(sent) + if cmd.Stop? then 1 else 0
  {
    BytesConcat(q, [cmd]);
    assert Bytes([cmd]) == Len(cmd) + Bytes([]);
    assert (sent + [cmd])[..|sent|] == sent;
  }

  lemma ThreadMoves(s: State, i: nat, t: Thread)
    requires i < |s.threads|
    ensures Total(s.threads[i := t], InFlight) == Total(s.threads, InFlight) - InFlight(s.threads[i]) + InFlight(t)
    ensures Total(s.threads[i := t], Unreported)
            == Total(s.threads, Unreported) - Unreported(s.threads[i]) + Unreported(t)
    ensures Total(s.threads[i := t], OnTheWay) == Total(s.threads, OnTheWay) - OnTheWay(s.threads[i]) + OnTheWay(t)
    ensures InFlight(s.threads[i]) <= Total(s.threads, InFlight)
  {
    TotalUpdate(s.threads, InFlight, i, t);
    TotalUpdate(s.threads, Unreported, i, t);
    TotalUpdate(s.threads, OnTheWay, i, t);
  }

  /** Threads only push messages, so a Stop is never on its way. */
  ghost predicate PushesMessages(s: State) {
    forall i | 0 <= i < |s.threads| :: OnTheWay(s.threads[i]) == 1 ==> s.threads[i].cmd.Msg?
  }

  predicate Moves(step: Step) {
    !step.SendStop? && !step.SetLimit?
  }

  lemma StepBytes(s: State, step: Step)
    requires Inv(s) && Enabled(s, step)
    ensures var s' := Next(s, step);
            s'.bytes == Bytes(s'.queue) + Total(s'.threads, InFlight) && s'.bytes >= 0
            && s'.sent == Commands(s'.taken) + s'.queue && |s'.queue| <= FWD_QUEUE_MAX
  {
    hide Total, Bytes, Forwarded, Commands, Stops, Unreported, OnTheWay;
    var s' := Next(s, step);
    if Moves(step) {
      ThreadMoves(s, step.i, s'.threads[step.i]);
    }
    match step
    case Evict(i) => TakeOne(s.queue, s.taken, false);
    case Receive(i) => TakeOne(s.queue, s.taken, true);
    case Send(i) => SendOne(s.queue, s.sent, s.threads[i].cmd);
    case SendStop => SendOne(s.queue, s.sent, Stop);
    case _ =>
  }

  lemma StepCounts(s: State, step: Step)
    requires Inv(s) && PushesMessages(s) && Enabled(s, step)
    ensures var s' := Next(s, step);
            s'.pushed + Stops(s'.sent)
            == |Forwarded(s'.taken)| + s'.dropped + Total(s'.threads, Unreported) + |s'.queue|
               + Total(s'.threads, OnTheWay)
  {
    hide Total, Bytes, Forwarded, Commands, Stops, InFlight;
    var s' := Next(s, step);
    if Moves(step) {
      ThreadMoves(s, step.i, s'.threads[step.i]);
    }
    match step
    case Evict(i) => TakeOne(s.queue, s.taken, false);
    case Receive(i) => TakeOne(s.queue, s.taken, true);
    case Send(i) => SendOne(s.queue, s.sent, s.threads[i].cmd);
    case SendStop => SendOne(s.queue, s.sent, Stop);
    case _ =>
  }

  lemma StepInv(s: State, step: Step)
    requires Inv(s) && PushesMessages(s) && Enabled(s, step)
    ensures Inv(Next(s, step)) && PushesMessages(Next(s, step)) && Next(s, step).bytes >= 0
  {
    hide Next, PushesMessages, Total, Bytes, Forwarded, Commands, Stops;
    StepBytes(s, step);
    StepCounts(s, step);
    StepPushes(s, step);
  }

  lemma StepPushes(s: State, step: Step)
    requires PushesMessages(s) && Enabled(s, step)
    ensures PushesMessages(Next(s, step))
  {
  }

  predicate EnabledRun(s: State, steps: seq<Step>)
    decreases steps
  {
    steps == [] || (Enabled(s, steps[0]) && EnabledRun(Next(s, steps[0]), steps[1..]))
  }

  function Run(s: State, steps: seq<Step>): State
    requires EnabledRun(s, steps)
    decreases steps
  {
    if steps == [] then s else Run(Next(s, steps[0]), steps[1..])
  }

  lemma {:induction false} RunInv(s: State, steps: seq<Step>)
    requires Inv(s) && PushesMessages(s) && EnabledRun(s, steps)
    ensures Inv(Run(s, steps)) && PushesMessages(Run(s, steps))
    decreases steps
  {
    hide Inv, PushesMessages, Enabled, Next;
    if steps != [] {
      StepInv(s, steps[0]);
      RunInv(Next(s, steps[0]), steps[1..]);
    }
  }

  function Start(threads: nat, limit: nat): State {
    State([], limit, 0, 0, seq(threads, i => Idle), [], [], 0)
  }

  lemma {:induction false} IdleTotal(ts: seq<Thread>, f: Thread -> nat)
    requires f(Idle) == 0 && forall i | 0 <= i < |ts| :: ts[i] == Idle
    ensures Total(ts, f) == 0
  {
    if ts != [] {
      IdleTotal(ts[1..], f);
    }
  }

  /**
   * In every interleaving of any number of threads: the byte counter equals the bytes queued and in
   * flight, so it never goes below zero; messages leave in the order they were sent; none is lost
   * uncounted or counted twice.
   */
  lemma EveryInterleaving(threads: nat, limit: nat, steps: seq<Step>)
    requires EnabledRun(Start(threads, limit), steps)
    ensures var s := Run(Start(threads, limit), steps);
            s.bytes == Bytes(s.queue) + Total(s.threads, InFlight)
            && s.bytes >= 0 && s.sent == Commands(s.taken) + s.queue
            && s.pushed + Stops(s.sent)
               == |Forwarded(s.taken)| + s.dropped + Total(s.threads, Unreported) + |s.queue|
                  + Total(s.threads, OnTheWay)
  {
    var s := Start(threads, limit);
    IdleTotal(s.threads, InFlight);
    IdleTotal(s.threads, Unreported);
    IdleTotal(s.threads, OnTheWay);
    RunInv(s, steps);
  }

  /** What the forwarder gets is a subsequence, in order, of what was sent. */
  lemma {:induction false} ForwardedInOrder(taken: seq<(Cmd, bool)>, j: nat) returns (at: nat)
    requires j < |Forwarded(taken)|
    ensures at < |taken| && taken[at] == (Forwarded(taken)[j], true)
    ensures |Forwarded(taken[..at])| == j
  {
    var last := |taken| - 1;
    if taken[last].1 && j == |Forwarded(taken)| - 1 {
      at := last;
    } else {
      at := ForwardedInOrder(taken[..last], j);
      assert taken[..last][..at] == taken[..at];
    }
  }

  /** Once all threads are idle, every message and Stop was forwarded, dropped, or is queued. */
  lemma NothingUncounted(threads: nat, limit: nat, steps: seq<Step>)
    requires EnabledRun(Start(threads, limit), steps)
    requires var s := Run(Start(threads, limit), steps); forall i | 0 <= i < |s.threads| :: s.threads[i] == Idle
    ensures var s := Run(Start(threads, limit), steps);
            s.bytes == Bytes(s.queue) && s.pushed + Stops(s.sent) == |Forwarded(s.taken)| + s.dropped + |s.queue|
  {
    EveryInterleaving(threads, limit, steps);
    var s := Run(Start(threads, limit), steps);
    IdleTotal(s.threads, InFlight);
    IdleTotal(s.threads, Unreported);
    IdleTotal(s.threads, OnTheWay);
  }
}
