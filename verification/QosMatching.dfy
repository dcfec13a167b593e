/**
 * Every local Writer is served by exactly one Reader: the request/offer rules of sections 2.2.3.4 to
 * 2.2.3.18 of OMG DDS 1.4, applied to the QoS derived for the Readers.
 */
module QosMatching {
  import opened Wrappers
  import opened Qos

  function DurabilityRank(d: Durability): nat {
    match d
    case Volatile => 0
    case TransientLocal => 1
    case Transient => 2
    case Persistent => 3
  }

  function LivelinessRank(k: LivelinessKind): nat {
    match k
    case Automatic => 0
    case ManualByParticipant => 1
    case ManualByTopic => 2
  }

  function ScopeRank(s: Scope): nat {
    match s
    case InstanceScope => 0
    case TopicScope => 1
    case GroupScope => 2
  }

  function OrElse<T>(o: Option<T>, t: T): T {
    if o.Some? then o.value else t
  }

  // ---- What is offered is at least what is requested, unset policies having their defaults --

  predicate ReliabilityMatches(w: Qos, r: Qos) {
    ReliabilityOf(r, true).Reliable? ==> ReliabilityOf(w, false).Reliable?
  }

  predicate DurabilityMatches(w: Qos, r: Qos) {
    DurabilityRank(OrElse(w.durability, Volatile)) >= DurabilityRank(OrElse(r.durability, Volatile))
  }

  predicate DeadlineMatches(w: Qos, r: Qos) {
    OrElse(w.deadline, DDS_INFINITE_TIME) <= OrElse(r.deadline, DDS_INFINITE_TIME)
  }

  predicate LatencyBudgetMatches(w: Qos, r: Qos) {
    OrElse(w.latencyBudget, 0) <= OrElse(r.latencyBudget, 0)
  }

  predicate LivelinessMatches(w: Qos, r: Qos) {
    var offered, requested :=
      OrElse(w.liveliness, Liveliness(Automatic, DDS_INFINITE_TIME)),
          OrElse(r.liveliness, Liveliness(Automatic, DDS_INFINITE_TIME));
    LivelinessRank(offered.kind) >= LivelinessRank(requested.kind) && offered.lease <= requested.lease
  }

  predicate DestinationOrderMatches(w: Qos, r: Qos) {
    OrElse(r.destinationOrder, ByReception).BySource? ==> OrElse(w.destinationOrder, ByReception).BySource?
  }

  predicate PresentationMatches(w: Qos, r: Qos) {
    var offered, requested :=
      OrElse(w.presentation, Presentation(InstanceScope, false, false)),
          OrElse(r.presentation, Presentation(InstanceScope, false, false));
    ScopeRank(offered.scope) >= ScopeRank(requested.scope)
    && (requested.coherent ==> offered.coherent) && (requested.ordered ==> offered.ordered)
  }

  predicate Compatible(w: Qos, r: Qos) {
    ReliabilityMatches(w, r) && DurabilityMatches(w, r) && DeadlineMatches(w, r) && LatencyBudgetMatches(w, r)
    && LivelinessMatches(w, r) && DestinationOrderMatches(w, r) && PresentationMatches(w, r)
  }

  /** DDS durations are at most infinite. */
  predicate ProperDurations(w: Qos) {
    OrElse(w.deadline, 0) <= DDS_INFINITE_TIME && OrElse(w.latencyBudget, 0) <= DDS_INFINITE_TIME
    && (w.liveliness.Some? ==> w.liveliness.value.lease <= DDS_INFINITE_TIME)
  }

  /** Whatever the Writers offer, the Reader derived from them matches each one. */
  lemma ReaderMatchesAll(writers: seq<Qos>, fallback: Qos, multiplier: nat, w: Qos)
    requires w in writers && ProperDurations(w)
    ensures Compatible(w, ReaderQos(writers, fallback, multiplier))
  {
    hide RouteHistory;
  }

  /** Without local Writers, the placeholder Reader matches any Writer to come. */
  lemma PlaceholderMatchesAny(fallback: Qos, multiplier: nat, w: Qos)
    requires ProperDurations(w)
    ensures Compatible(w, ReaderQos([], fallback, multiplier))
  {
    hide RouteHistory;
  }

  /** The Reader hands on what `w` writes; the second Reader of a route skips TRANSIENT_LOCAL Writers. */
  predicate Delivers(r: Qos, skipsTransientLocal: bool, w: Qos) {
    Compatible(w, r) && !(skipsTransientLocal && IsTransientLocal(w))
  }

  function Deliveries(readers: (Qos, Option<Qos>), w: Qos): nat {
    (if Delivers(readers.0, false, w) then 1 else 0)
    + (if readers.1.Some? && Delivers(readers.1.value, true, w) then 1 else 0)
  }

  /** Each sample of a local Writer is forwarded once, never twice and never zero times. */
  lemma ServedExactlyOnce(writers: seq<Qos>, fallback: Qos, multiplier: nat, w: Qos)
    requires w in writers && ProperDurations(w)
    ensures Deliveries(ReadersQos(writers, fallback, multiplier), w) == 1
  {
    hide RouteHistory, Compatible;
    WhereHas(writers, IsTransientLocal);
    WhereHas(writers, (q: Qos) => !IsTransientLocal(q));
    if Mixed(writers) {
      var tl, volatile := TransientLocals(writers), Volatiles(writers);
      if IsTransientLocal(w) {
        ReaderMatchesAll(tl, fallback, multiplier, w);
      } else {
        ReaderMatchesAll(volatile, fallback, multiplier, w);
        Rejected(tl, fallback, multiplier, w);
      }
    } else {
      ReaderMatchesAll(writers, fallback, multiplier, w);
    }
  }

  /** The Reader of TRANSIENT_LOCAL Writers rejects a VOLATILE one. */
  lemma Rejected(tl: seq<Qos>, fallback: Qos, multiplier: nat, w: Qos)
    requires tl != [] && (forall q | q in tl :: IsTransientLocal(q)) && !IsTransientLocal(w)
    ensures !Compatible(w, ReaderQos(tl, fallback, multiplier))
  {
    hide RouteHistory;
  }

  /**
   * The DDS Writer of the other side is reliable enough for any Reader, and durable enough for one that
   * asks for no more than TRANSIENT_LOCAL exactly if some remote Writer is.
   */
  lemma RemoteOfferKept(remotes: seq<Qos>, r: Qos)
    ensures ReliabilityMatches(WriterQos(remotes), r)
    ensures DurabilityRank(OrElse(r.durability, Volatile)) <= 1 ==>
              (DurabilityMatches(WriterQos(remotes), r) <==>
               !IsTransientLocal(r) || exists q | q in remotes :: DurabilityMatches(q, r))
  {
  }
}
