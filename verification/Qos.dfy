/**
 * The QoS algebra of topic routes: one reader or writer stands in for many, whatever their order.
 * Policies that play no part in it are left out of the record.
 */
module Qos {
  import opened Wrappers

  type I32 = x: int | -0x8000_0000 <= x < 0x8000_0000

  datatype HistoryKind = KeepLast | KeepAll
  datatype History = History(kind: HistoryKind, depth: I32)

  datatype ReliabilityKind = BestEffort | Reliable
  datatype Reliability = Reliability(kind: ReliabilityKind, maxBlockingTime: int)

  datatype Durability = Volatile | TransientLocal | Transient | Persistent

  datatype DurabilityService =
    DurabilityService(historyKind: HistoryKind, historyDepth: I32, maxSamples: I32, maxInstances: I32,
        maxSamplesPerInstance: I32)

  datatype LivelinessKind = Automatic | ManualByParticipant | ManualByTopic
  datatype Liveliness = Liveliness(kind: LivelinessKind, lease: int)

  datatype DestinationOrder = ByReception | BySource

  datatype Scope = InstanceScope | TopicScope | GroupScope
  datatype Presentation = Presentation(scope: Scope, coherent: bool, ordered: bool)

  datatype Qos = Qos(
    reliability: Option<Reliability>,
    durability: Option<Durability>,
    durabilityService: Option<DurabilityService>,
    history: Option<History>,
    deadline: Option<int>,
    liveliness: Option<Liveliness>,
    latencyBudget: Option<int>,
    destinationOrder: Option<DestinationOrder>,
    presentation: Option<Presentation>,
    userData: Option<string>,
    ignoreParticipant: bool)

  const DEFAULT_QOS := Qos(None, None, None, None, None, None, None, None, None, None, false)
  const DEFAULT_HISTORY := History(KeepLast, 1)

  const DDS_INFINITE_TIME: int := 0x7FFF_FFFF_FFFF_FFFF
  const DDS_100MS_DURATION: int := 100_000_000
  const DDS_LENGTH_UNLIMITED: I32 := -1
  const I64_MAX: int := 0x7FFF_FFFF_FFFF_FFFF

  /** Cap of a summed TRANSIENT_LOCAL depth. */
  const MAX_TL_DEPTH: int := 10_000

  predicate IsReliable(q: Qos) {
    q.reliability.Some? && q.reliability.value.kind.Reliable?
  }

  predicate IsTransientLocal(q: Qos) {
    q.durability.Some? && !q.durability.value.Volatile?
  }

  function Max(a: int, b: int): int {
    if a < b then b else a
  }

  function Min(a: int, b: int): int {
    if a < b then a else b
  }

  // ---- History ----------------------------------------------------------------------------

  function HistoryOf(q: Qos): History {
    var h := if q.history.Some? then q.history.value else DEFAULT_HISTORY;
    if h.kind.KeepLast? then h.(depth := Max(h.depth, 1)) else h
  }

  function Stronger(a: History, b: History): History {
    if a.kind.KeepAll? then a
    else if b.kind.KeepAll? then b
    else if b.depth > a.depth then b
    else a
  }

  function MaxFrom(h: History, qs: seq<Qos>): History
    decreases qs
  {
    if qs == [] then h else MaxFrom(Stronger(h, HistoryOf(qs[0])), qs[1..])
  }

  /** KEEP_ALL wins, else the deepest KEEP_LAST. */
  function MaxHistory(qs: seq<Qos>): History {
    if qs == [] then HistoryOf(DEFAULT_QOS) else MaxFrom(HistoryOf(qs[0]), qs[1..])
  }

  function Where(qs: seq<Qos>, p: Qos -> bool): seq<Qos> {
    if qs == [] then [] else (if p(qs[0]) then [qs[0]] else []) + Where(qs[1..], p)
  }

  function TransientLocals(qs: seq<Qos>): seq<Qos> {
    Where(qs, IsTransientLocal)
  }

  function Volatiles(qs: seq<Qos>): seq<Qos> {
    Where(qs, (q: Qos) => !IsTransientLocal(q))
  }

  function DepthSum(qs: seq<Qos>): int {
    if qs == [] then 0 else HistoryOf(qs[0]).depth + DepthSum(qs[1..])
  }

  /** `i64::saturating_mul` of two non-negative numbers. */
  function SaturatingMul(a: nat, b: nat): nat {
    Min(a * b, I64_MAX)
  }

  lemma {:induction false} DepthSumPositive(qs: seq<Qos>)
    requires forall q | q in qs :: HistoryOf(q).kind.KeepLast?
    ensures DepthSum(qs) >= |qs|
  {
    if qs != [] {
      assert qs[0] in qs;
      DepthSumPositive(qs[1..]);
    }
  }

  lemma {:induction false} WhereHas(qs: seq<Qos>, p: Qos -> bool)
    ensures forall q :: q in Where(qs, p) <==> q in qs && p(q)
  {
    if qs != [] {
      assert qs == [qs[0]] + qs[1..];
      WhereHas(qs[1..], p);
    }
  }

  /** `reduce` keeps the first KEEP_ALL it meets, else the deepest. */
  lemma {:induction false} MaxFromIs(h: History, qs: seq<Qos>)
    ensures var m := MaxFrom(h, qs);
            (m == h || exists q | q in qs :: m == HistoryOf(q))
            && (h.kind.KeepAll? ==> m == h)
            && (m.kind.KeepLast? ==> h.kind.KeepLast? && h.depth <= m.depth
                                     && forall q | q in qs :: HistoryOf(q).kind.KeepLast?
                                         && HistoryOf(q).depth <= m.depth)
    decreases qs
  {
    if qs != [] {
      assert qs == [qs[0]] + qs[1..];
      MaxFromIs(Stronger(h, HistoryOf(qs[0])), qs[1..]);
    }
  }

  lemma MaxHistoryIs(qs: seq<Qos>)
    requires qs != []
    ensures var m := MaxHistory(qs);
            (exists q | q in qs :: m == HistoryOf(q))
            && (m.kind.KeepLast? ==> forall q | q in qs :: HistoryOf(q).kind.KeepLast? && HistoryOf(q).depth <= m.depth)
            && (HistoryOf(qs[0]).kind.KeepAll? ==> m == HistoryOf(qs[0]))
  {
    hide HistoryOf;
    assert qs == [qs[0]] + qs[1..];
    MaxFromIs(HistoryOf(qs[0]), qs[1..]);
  }

  /** History of a route serving `qs`: several TRANSIENT_LOCAL publishers share one history, so depths add up. */
  function RouteHistory(qs: seq<Qos>, multiplier: nat): History {
    var max := MaxHistory(qs);
    var tl := TransientLocals(qs);
    if max.kind.KeepAll? || tl == [] then max
    else
      assert DepthSum(tl) >= 0 by {
        WhereHas(qs, IsTransientLocal);
        MaxHistoryIs(qs);
        DepthSumPositive(tl);
      }
      History(KeepLast, Min(SaturatingMul(DepthSum(tl), if |tl| > 1 then Max(multiplier, 1) else 1), MAX_TL_DEPTH))
  }

  // ---- Derived QoS ------------------------------------------------------------------------

  /** `adapt_writer_qos_for_reader`, on the policies kept here. */
  function AdaptedForReader(q: Qos): Qos {
    q.(durabilityService := None, ignoreParticipant := true,
       reliability := if q.reliability.None? then Some(Reliability(BestEffort, DDS_100MS_DURATION)) else q.reliability)
  }

  function FirstOr(qs: seq<Qos>, q: Qos): Qos {
    if qs == [] then q else qs[0]
  }

  function WithKind(kind: ReliabilityKind): Option<Reliability> {
    Some(Reliability(kind, DDS_100MS_DURATION))
  }

  /** The weakest QoS all local Writers offer, or a placeholder matching any Writer. */
  function ReaderQos(writers: seq<Qos>, fallback: Qos, multiplier: nat): Qos {
    AdaptedForReader(FirstOr(writers, fallback)).(
    reliability := WithKind(if writers != [] && (forall w | w in writers :: IsReliable(w)) then Reliable
                            else BestEffort),
    durability := Some(if writers != [] && (forall w | w in writers :: IsTransientLocal(w)) then TransientLocal
                       else Volatile),
    history := Some(RouteHistory(writers, multiplier)),
    deadline := None, liveliness := None, latencyBudget := Some(DDS_INFINITE_TIME),
    destinationOrder := None, presentation := None)
  }

  /** Writers of both durabilities are served apart. */
  predicate Mixed(writers: seq<Qos>) {
    TransientLocals(writers) != [] && Volatiles(writers) != []
  }

  /** The QoS of the Reader, and of the second, VOLATILE one of a topic with mixed durabilities. */
  function ReadersQos(writers: seq<Qos>, fallback: Qos, multiplier: nat): (Qos, Option<Qos>) {
    if Mixed(writers) then
      (ReaderQos(TransientLocals(writers), fallback, multiplier),
          Some(ReaderQos(Volatiles(writers), fallback, multiplier)))
    else (ReaderQos(writers, fallback, multiplier), None)
  }

  /** The strongest offer of all local Writers. */
  function AnnouncedQos(writers: seq<Qos>, multiplier: nat): Qos {
    FirstOr(writers, DEFAULT_QOS).(
    reliability := WithKind(if exists w | w in writers :: IsReliable(w) then Reliable else BestEffort),
    durability := Some(if exists w | w in writers :: IsTransientLocal(w) then TransientLocal else Volatile),
    history := Some(RouteHistory(writers, multiplier)))
  }

  function AnnouncedQoses(writers: seq<Qos>, multiplier: nat): (Qos, Option<Qos>) {
    if Mixed(writers) then
      (AnnouncedQos(TransientLocals(writers), multiplier), Some(AnnouncedQos(Volatiles(writers), multiplier)))
    else (AnnouncedQos(writers, multiplier), None)
  }

  /** One Writer for all announced remote publishers; each announcement already includes its multiplier. */
  function WriterQos(remotes: seq<Qos>): Qos {
    var tl := exists q | q in remotes :: IsTransientLocal(q);
    var history := RouteHistory(remotes, 1);
    FirstOr(remotes, DEFAULT_QOS).(
    reliability := Some(Reliability(Reliable, DDS_100MS_DURATION + 1)),
    durability := Some(if tl then TransientLocal else Volatile),
    durabilityService := if tl then Some(DurabilityService(history.kind, history.depth, DDS_LENGTH_UNLIMITED,
                                                           DDS_LENGTH_UNLIMITED, DDS_LENGTH_UNLIMITED)) else None,
    history := Some(history), ignoreParticipant := true)
  }

  /** An announcement: the bridge it is from, and its QoS. */
  datatype Remote = Remote(bridge: string, qos: Qos)

  /** The bridge announces both durabilities, so it marks its VOLATILE samples. */
  predicate Marks(remotes: seq<Remote>, bridge: string) {
    (exists r | r in remotes :: r.bridge == bridge && IsTransientLocal(r.qos))
    && exists r | r in remotes :: r.bridge == bridge && !IsTransientLocal(r.qos)
  }

  predicate Moved(remotes: seq<Remote>, r: Remote) {
    !IsTransientLocal(r.qos) && Marks(remotes, r.bridge)
  }

  /** The QoS of `of` that move, or those that do not, as `all` tells. */
  function Part(of: seq<Remote>, all: seq<Remote>, moved: bool): seq<Qos> {
    if of == [] then [] else (if Moved(all, of[0]) == moved then [of[0].qos] else []) + Part(of[1..], all, moved)
  }

  /** The QoS of the Writer, and of the VOLATILE one for the marked samples. */
  function WritersQos(remotes: seq<Remote>): (Qos, Option<Qos>) {
    var moved := Part(remotes, remotes, true);
    (WriterQos(Part(remotes, remotes, false)), if moved != [] then Some(WriterQos(moved)) else None)
  }

  /** The loop that tells whether a bridge mixes durabilities. */
  method MarksLoop(remotes: seq<Remote>, bridge: string) returns (mixed: bool)
    ensures mixed == Marks(remotes, bridge)
  {
    var tl, volatile := false, false;
    for i := 0 to |remotes|
      invariant tl <==> exists r | r in remotes[..i] :: r.bridge == bridge && IsTransientLocal(r.qos)
      invariant volatile <==> exists r | r in remotes[..i] :: r.bridge == bridge && !IsTransientLocal(r.qos)
    {
      assert remotes[..i + 1] == remotes[..i] + [remotes[i]];
      if remotes[i].bridge == bridge {
        if IsTransientLocal(remotes[i].qos) {
          tl := true;
        } else {
          volatile := true;
        }
      }
    }
    assert remotes[..|remotes|] == remotes;
    mixed := tl && volatile;
  }

  // ---- When a route can keep its endpoint -------------------------------------------------

  function ReliabilityOf(q: Qos, reader: bool): ReliabilityKind {
    if q.reliability.Some? then q.reliability.value.kind else if reader then BestEffort else Reliable
  }

  function ServiceHistory(q: Qos): Option<History> {
    if q.durabilityService.None? then None
    else Some(History(q.durabilityService.value.historyKind, q.durabilityService.value.historyDepth))
  }

  /** `same_route_qos`. */
  predicate SameRouteQos(a: Qos, b: Qos, reader: bool) {
    ReliabilityOf(a, reader) == ReliabilityOf(b, reader) && IsTransientLocal(a) == IsTransientLocal(b)
    && HistoryOf(a) == HistoryOf(b) && ServiceHistory(a) == ServiceHistory(b)
  }

  predicate SameOption(a: Option<Qos>, b: Option<Qos>, reader: bool) {
    if a.Some? && b.Some? then SameRouteQos(a.value, b.value, reader) else a.None? && b.None?
  }
}
