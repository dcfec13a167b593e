/**
 * The server side of a bridged service: queries wait for the DDS reply that carries their id.
 */
module ServiceServer {
  import opened Wrappers
  import opened RequestHeader

  /** A zenoh query, told apart by the order of arrival. */
  type QueryId = nat

  /** An hour, in nanoseconds like all instants here. */
  const QUERY_GC_TIMEOUT: nat := 3_600_000_000_000

  /** What became of a query. */
  datatype Fate = Waiting | Answered | Replaced | Expired | Failed

  /** Who asked for what id, and when it was entered. */
  datatype Entry = Entry(id: Header, inserted: nat)

  /**
   * `pending` is the map of queries in progress. `asked` and `fates` tell of every query so far, and
   * `answers` in order which query got the reply to which id.
   */
  datatype Server = Server(pending: map<Header, (QueryId, nat)>, asked: seq<Entry>, fates: seq<Fate>,
      answers: seq<(QueryId, Header)>)

  const IDLE := Server(map[], [], [], [])

  /** A request is entered, a write failed, a reply arrived. */
  datatype Step =
    | Request(id: Header, now: nat)
    | WriteFailed(q: QueryId)
    | Reply(id: Header)

  function Elapsed(since: nat, now: nat): nat {
    if now < since then 0 else now - since
  }

  /** Abandoned queries are dropped when another one is entered. */
  function Kept(pending: map<Header, (QueryId, nat)>, now: nat): map<Header, (QueryId, nat)> {
    map h | h in pending && Elapsed(pending[h].1, now) < QUERY_GC_TIMEOUT :: pending[h]
  }

  function FateAfterRequest(s: Server, q: QueryId, id: Header, now: nat): Fate
    requires q < |s.fates|
  {
    if s.fates[q].Waiting? && !(exists h | h in Kept(s.pending, now) :: s.pending[h].0 == q) then Expired
    else if s.fates[q].Waiting? && id in Kept(s.pending, now) && s.pending[id].0 == q then Replaced
    else s.fates[q]
  }

  function Next(s: Server, step: Step): Server
    requires |s.fates| == |s.asked|
  {
    match step
    case Request(id, now) =>
      var q := |s.asked|;
      Server(Kept(s.pending, now)[id := (q, now)], s.asked + [Entry(id, now)],
             seq(q, i requires 0 <= i < q => FateAfterRequest(s, i, id, now)) + [Waiting], s.answers)
    case WriteFailed(q) =>
      if q >= |s.asked| then s
      else
        var (id, inserted) := (s.asked[q].id, s.asked[q].inserted);
        if id in s.pending && s.pending[id].1 == inserted then
          var removed := s.pending[id].0;
          s.(pending := s.pending - {id}, fates := if removed < |s.fates| then s.fates[removed := Failed] else s.fates)
        else s
    case Reply(id) =>
      if id !in s.pending then s
      else
        var q := s.pending[id].0;
        s.(pending := s.pending - {id}, fates := if q < |s.fates| then s.fates[q := Answered] else s.fates,
           answers := s.answers + [(q, id)])
  }

  /**
   * Each query waits exactly if it is pending under its own id, and was answered exactly if it is among
   * the answers.
   */
  ghost predicate Inv(s: Server) {
    |s.fates| == |s.asked|
    && (forall h | h in s.pending ::
          s.pending[h].0 < |s.asked| && s.asked[s.pending[h].0] == Entry(h, s.pending[h].1)
              && s.fates[s.pending[h].0].Waiting?)
    && (forall q | 0 <= q < |s.fates| && s.fates[q].Waiting? ::
          s.asked[q].id in s.pending && s.pending[s.asked[q].id].0 == q)
    && (forall i | 0 <= i < |s.answers| ::
          s.answers[i].0 < |s.asked| && s.fates[s.answers[i].0].Answered?
              && s.asked[s.answers[i].0].id == s.answers[i].1)
    && (forall q | 0 <= q < |s.fates| && s.fates[q].Answered? :: exists i | 0 <= i < |s.answers| :: s.answers[i].0 == q)
    && forall i, j | 0 <= i < j < |s.answers| :: s.answers[i].0 != s.answers[j].0
  }

  lemma RequestInv(s: Server, id: Header, now: nat)
    requires Inv(s)
    ensures Inv(Next(s, Request(id, now)))
  {
    var s' := Next(s, Request(id, now));
    var kept := Kept(s.pending, now);
    forall h | h in s'.pending
      ensures s'.pending[h].0 < |s'.asked| && s'.asked[s'.pending[h].0] == Entry(h, s'.pending[h].1)
              && s'.fates[s'.pending[h].0].Waiting?
    {
      if h != id {
        assert h in kept && kept[h] == s.pending[h];
        assert s.asked[s.pending[h].0] == Entry(h, s.pending[h].1);
      }
    }
    forall q | 0 <= q < |s'.fates| && s'.fates[q].Waiting?
        ensures s'.asked[q].id in s'.pending && s'.pending[s'.asked[q].id].0 == q {
      if q < |s.asked| {
        var h :| h in kept && s.pending[h].0 == q;
        assert s.asked[q] == Entry(h, s.pending[h].1);
      }
    }
    forall q | 0 <= q < |s.fates| ensures s'.fates[q].Answered? <==> s.fates[q].Answered? {
    }
  }

  lemma FailedInv(s: Server, q: QueryId)
    requires Inv(s)
    ensures Inv(Next(s, WriteFailed(q)))
  {
  }

  lemma ReplyInv(s: Server, id: Header)
    requires Inv(s)
    ensures Inv(Next(s, Reply(id)))
  {
    if id in s.pending {
      var s', q := Next(s, Reply(id)), s.pending[id].0;
      assert s.asked[q] == Entry(id, s.pending[id].1) && s.fates[q].Waiting?;
      TakenOut(s, s', id, q, Answered);
      assert s'.answers[|s.answers|] == (q, id);
      forall p | 0 <= p < |s'.fates| && s'.fates[p].Answered?
          ensures exists i | 0 <= i < |s'.answers| :: s'.answers[i].0 == p {
        if p != q {
          var i :| 0 <= i < |s.answers| && s.answers[i].0 == p;
          assert s'.answers[i].0 == p;
        }
      }
    }
  }

  /** A pending query was taken out: the others still wait where they did. */
  lemma TakenOut(s: Server, s': Server, id: Header, q: QueryId, fate: Fate)
    requires Inv(s) && id in s.pending && s.pending[id].0 == q && !fate.Waiting?
    requires s'.pending == s.pending - {id} && s'.asked == s.asked && s'.fates == s.fates[q := fate]
    ensures forall h | h in s'.pending ::
              s'.pending[h].0 < |s'.asked| && s'.asked[s'.pending[h].0] == Entry(h, s'.pending[h].1)
                  && s'.fates[s'.pending[h].0].Waiting?
    ensures forall p | 0 <= p < |s'.fates| && s'.fates[p].Waiting? ::
              s'.asked[p].id in s'.pending && s'.pending[s'.asked[p].id].0 == p
    ensures forall i | 0 <= i < |s.answers| :: s.answers[i].0 != q
  {
  }

  lemma StepInv(s: Server, step: Step)
    requires Inv(s)
    ensures Inv(Next(s, step))
  {
    hide Inv, Next;
    match step
    case Request(id, now) => RequestInv(s, id, now);
    case WriteFailed(q) => FailedInv(s, q);
    case Reply(id) => ReplyInv(s, id);
  }

  function Run(s: Server, steps: seq<Step>): (r: Server)
    requires |s.fates| == |s.asked|
    ensures |r.fates| == |r.asked|
    decreases steps
  {
    if steps == [] then s else Run(Next(s, steps[0]), steps[1..])
  }

  lemma {:induction false} RunInv(s: Server, steps: seq<Step>)
    requires Inv(s)
    ensures Inv(Run(s, steps))
    decreases steps
  {
    hide Inv, Next;
    InvLengths(s);
    if steps != [] {
      StepInv(s, steps[0]);
      InvLengths(Next(s, steps[0]));
      RunInv(Next(s, steps[0]), steps[1..]);
    }
  }

  lemma InvLengths(s: Server)
    requires Inv(s)
    ensures |s.fates| == |s.asked|
  {
  }

  /**
   * Over every run of requests, failed writes, replies and garbage collection: a query is answered at
   * most once, by a reply carrying the id it asked under, and while it is neither answered nor given
   * up it is the one pending under that id.
   */
  lemma AnsweredOnce(steps: seq<Step>)
    ensures var s := Run(IDLE, steps);
            (forall i, j | 0 <= i < j < |s.answers| :: s.answers[i].0 != s.answers[j].0)
            && (forall i | 0 <= i < |s.answers| ::
                  s.answers[i].0 < |s.asked| && s.asked[s.answers[i].0].id == s.answers[i].1)
            && (forall q | 0 <= q < |s.asked| && s.fates[q].Waiting? ::
                  s.asked[q].id in s.pending && s.pending[s.asked[q].id].0 == q)
            && (forall q | 0 <= q < |s.asked| ::
                  s.fates[q].Answered? <==> exists i | 0 <= i < |s.answers| :: s.answers[i].0 == q)
  {
    RunInv(IDLE, steps);
    var s := Run(IDLE, steps);
    forall q | 0 <= q < |s.asked| && exists i | 0 <= i < |s.answers| :: s.answers[i].0 == q
        ensures s.fates[q].Answered? {
      var i :| 0 <= i < |s.answers| && s.answers[i].0 == q;
    }
  }

  /** Queries under one id are entered at different instants. */
  ghost predicate DistinctInstants(s: Server) {
    forall p, q | 0 <= p < q < |s.asked| && s.asked[p].id == s.asked[q].id :: s.asked[p].inserted != s.asked[q].inserted
  }

  /** Another query waits under the id of `q`, entered at the same instant. */
  predicate Confusable(s: Server, q: QueryId)
    requires q < |s.asked|
  {
    var (id, inserted) := (s.asked[q].id, s.asked[q].inserted);
    id in s.pending && s.pending[id].0 != q && s.pending[id].1 == inserted
  }

  /**
   * A failed write gives up its own query if that still waits, and touches no other one, exactly if none is
   * confusable with it; which distinct instants exclude.
   */
  lemma FailedWriteOwn(s: Server, q: QueryId)
    requires Inv(s) && q < |s.asked|
    ensures var s' := Next(s, WriteFailed(q));
            (s'.fates == (if s.fates[q].Waiting? then s.fates[q := Failed] else s.fates)
             && s'.pending == (if s.fates[q].Waiting? then s.pending - {s.asked[q].id} else s.pending))
            <==> !Confusable(s, q)
    ensures DistinctInstants(s) ==> !Confusable(s, q)
  {
    var id := s.asked[q].id;
    if Confusable(s, q) {
      var other := s.pending[id].0;
      assert s.asked[other] == Entry(id, s.pending[id].1) && s.fates[other].Waiting?;
      assert Next(s, WriteFailed(q)).fates[other] == Failed;
    }
  }

  /** Two queries entered under one id at one instant: the failed write of the first gives up the second. */
  lemma SameInstantGivesUpNewer(id: Header, now: nat)
    ensures var s := Run(IDLE, [Request(id, now), Request(id, now)]);
            s.fates == [Replaced, Waiting] && Next(s, WriteFailed(0)).fates == [Replaced, Failed]
  {
    var s1 := Next(IDLE, Request(id, now));
    assert s1.pending == map[id := (0, now)] && s1.fates == [Waiting] && s1.asked == [Entry(id, now)];
    assert Kept(s1.pending, now) == s1.pending;
    assert s1.pending[id].0 == 0;
    var s2 := Next(s1, Request(id, now));
    assert s2.fates == [Replaced, Waiting] && s2.asked == [Entry(id, now), Entry(id, now)]
        && s2.pending == map[id := (1, now)];
    assert [Request(id, now), Request(id, now)][1..] == [Request(id, now)];
    assert Run(s1, [Request(id, now)]) == Run(s2, []);
  }

  /** The map of queries as the bridge keeps it. */
  class QueriesInProgress {
    var pending: map<Header, (QueryId, nat)>

    constructor ()
      ensures pending == map[]
    {
      pending := map[];
    }

    /** The entry of a request, before its DDS write. */
    method Enter(id: Header, q: QueryId, now: nat)
      modifies this
      ensures pending == Kept(old(pending), now)[id := (q, now)]
    {
      pending := map h | h in pending && Elapsed(pending[h].1, now) < QUERY_GC_TIMEOUT :: pending[h];
      pending := pending[id := (q, now)];
    }

    /** The write failed: only the entry made at that instant goes. */
    method GiveUp(id: Header, inserted: nat)
      modifies this
      ensures pending == if id in old(pending)
              && old(pending)[id].1 == inserted then old(pending) - {id} else old(pending)
    {
      if id in pending && pending[id].1 == inserted {
        pending := pending - {id};
      }
    }

    /** `route_dds_reply_to_zenoh`: the query waiting for this reply, if any, and what it is answered. */
    method TakeReply(reply: Bytes) returns (answer: Option<(QueryId, Bytes)>)
      modifies this
      ensures match Strip(reply)
              case None => answer.None? && pending == old(pending)
              case Some((id, zenoh)) =>
                if id in old(pending) then answer == Some((old(pending)[id].0, zenoh)) && pending == old(pending) - {id}
                else answer.None? && pending == old(pending)
    {
      match Strip(reply) {
        case None => answer := None;
        case Some((id, zenoh)) =>
          if id in pending {
            answer := Some((pending[id].0, zenoh));
            pending := pending - {id};
          } else {
            answer := None;
          }
      }
    }
  }

  /** The client's side of one request: only the first reply is passed on. */
  class ClientRequest {
    const id: Header
    var replyReceived: bool

    constructor (id: Header)
      requires ValidHeader(id)
      ensures this.id == id && !replyReceived
    {
      this.id, replyReceived := id, false;
    }

    /** `result` is None for an error reply; what is written to DDS is returned. */
    method OnReply(result: Option<Bytes>) returns (written: Option<Bytes>)
      requires ValidHeader(id)
      modifies this
      ensures replyReceived
      ensures written == if old(replyReceived) || result.None? then None else Wrap(result.value, id)
    {
      if replyReceived { return None; }
      replyReceived := true;
      written := if result.None? then None else Wrap(result.value, id);
    }
  }
}
