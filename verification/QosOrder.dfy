/**
 * The derived QoS does not depend on the order of publishers, and TRANSIENT_LOCAL depths are summed
 * once on the way from the local Writers of one bridge to the DDS Writer of another.
 */
module QosOrder {
  import opened Wrappers
  import opened Qos

  predicate Permuted<T(==)>(a: seq<T>, b: seq<T>) {
    multiset(a) == multiset(b)
  }

  lemma SameElements<T>(a: seq<T>, b: seq<T>)
    requires Permuted(a, b)
    ensures |a| == |b| && forall x :: x in a <==> x in b
  {
    assert |multiset(a)| == |multiset(b)|;
    forall x ensures x in a <==> x in b {
      assert x in a <==> x in multiset(a);
      assert x in b <==> x in multiset(b);
    }
  }

  lemma TakeOut<T>(s: seq<T>, i: nat)
    requires i < |s|
    ensures s == s[..i] + [s[i]] + s[i + 1..] && multiset(s[..i] + s[i + 1..]) == multiset(s) - multiset{s[i]}
  {
  }

  /** A head met somewhere in the other sequence, and what is left of that. */
  lemma Unpermute<T>(a: seq<T>, b: seq<T>) returns (i: nat)
    requires Permuted(a, b) && a != []
    ensures i < |b| && b[i] == a[0] && Permuted(a[1..], b[..i] + b[i + 1..]) && b == b[..i] + [b[i]] + b[i + 1..]
  {
    SameElements(a, b);
    assert a[0] in b;
    i :| 0 <= i < |b| && b[i] == a[0];
    TakeOut(b, i);
    TakeOut(a, 0);
    assert a[..0] + a[1..] == a[1..];
  }

  lemma {:induction false} DepthSumConcat(a: seq<Qos>, b: seq<Qos>)
    ensures DepthSum(a + b) == DepthSum(a) + DepthSum(b)
    decreases a
  {
    if a == [] {
      assert a + b == b;
    } else {
      assert (a + b)[1..] == a[1..] + b && (a + b)[0] == a[0];
      DepthSumConcat(a[1..], b);
    }
  }

  lemma {:induction false} DepthSumPermuted(a: seq<Qos>, b: seq<Qos>)
    requires Permuted(a, b)
    ensures DepthSum(a) == DepthSum(b)
    decreases a
  {
    hide HistoryOf;
    if a == [] {
      SameElements(a, b);
    } else {
      var i := Unpermute(a, b);
      DepthSumPermuted(a[1..], b[..i] + b[i + 1..]);
      DepthSumConcat(b[..i], b[i + 1..]);
      DepthSumConcat(b[..i] + [b[i]], b[i + 1..]);
      DepthSumConcat(b[..i], [b[i]]);
      assert DepthSum([b[i]]) == HistoryOf(b[i]).depth + DepthSum([]);
    }
  }

  lemma {:induction false} WhereCounts(qs: seq<Qos>, p: Qos -> bool, q: Qos)
    ensures multiset(Where(qs, p))[q] == if p(q) then multiset(qs)[q] else 0
  {
    if qs != [] {
      assert qs == [qs[0]] + qs[1..];
      WhereCounts(qs[1..], p, q);
    }
  }

  lemma WherePermuted(a: seq<Qos>, b: seq<Qos>, p: Qos -> bool)
    requires Permuted(a, b)
    ensures Permuted(Where(a, p), Where(b, p))
  {
    forall q ensures multiset(Where(a, p))[q] == multiset(Where(b, p))[q] {
      WhereCounts(a, p, q);
      WhereCounts(b, p, q);
    }
  }

  // ---- History ----------------------------------------------------------------------------

  /** The KEEP_ALL publishers agree on the depth they carry along. */
  predicate KeepAllAgree(qs: seq<Qos>) {
    forall a, b | a in qs && b in qs && HistoryOf(a).kind.KeepAll? && HistoryOf(b).kind.KeepAll? ::
      HistoryOf(a).depth == HistoryOf(b).depth
  }

  lemma MaxHistoryPermuted(a: seq<Qos>, b: seq<Qos>)
    requires Permuted(a, b) && KeepAllAgree(a)
    ensures MaxHistory(a) == MaxHistory(b)
  {
    hide HistoryOf, MaxHistory;
    SameElements(a, b);
    if a != [] {
      MaxHistoryIs(a);
      MaxHistoryIs(b);
    }
  }

  lemma RouteHistoryPermuted(a: seq<Qos>, b: seq<Qos>, multiplier: nat)
    requires Permuted(a, b) && KeepAllAgree(a)
    ensures RouteHistory(a, multiplier) == RouteHistory(b, multiplier)
  {
    hide HistoryOf, MaxHistory;
    MaxHistoryPermuted(a, b);
    WherePermuted(a, b, IsTransientLocal);
    SameElements(TransientLocals(a), TransientLocals(b));
    DepthSumPermuted(TransientLocals(a), TransientLocals(b));
  }

  lemma BringToFront<T>(qs: seq<T>, i: nat)
    requires i < |qs|
    ensures Permuted(qs, [qs[i]] + qs[..i] + qs[i + 1..])
  {
    assert qs == qs[..i] + [qs[i]] + qs[i + 1..];
  }

  /**
   * The history of a route is the same for every order of its publishers exactly when all KEEP_ALL
   * ones carry the same depth.
   */
  lemma HistoryOrderFree(qs: seq<Qos>, multiplier: nat)
    ensures (forall p | Permuted(qs, p) :: RouteHistory(p, multiplier) == RouteHistory(qs, multiplier))
            <==> KeepAllAgree(qs)
  {
    hide HistoryOf, MaxHistory, RouteHistory;
    if KeepAllAgree(qs) {
      forall p | Permuted(qs, p) ensures RouteHistory(p, multiplier) == RouteHistory(qs, multiplier) {
        RouteHistoryPermuted(qs, p, multiplier);
      }
    } else {
      var a, b :| a in qs && b in qs && HistoryOf(a).kind.KeepAll? && HistoryOf(b).kind.KeepAll?
          && HistoryOf(a).depth != HistoryOf(b).depth;
      var i :| 0 <= i < |qs| && qs[i] == a;
      var j :| 0 <= j < |qs| && qs[j] == b;
      FirstKeepAll(qs, i, multiplier);
      FirstKeepAll(qs, j, multiplier);
    }
  }

  /** A KEEP_ALL publisher moved to the front decides the history. */
  lemma FirstKeepAll(qs: seq<Qos>, i: nat, multiplier: nat)
    requires i < |qs| && HistoryOf(qs[i]).kind.KeepAll?
    ensures var p := [qs[i]] + qs[..i] + qs[i + 1..];
            Permuted(qs, p) && RouteHistory(p, multiplier) == HistoryOf(qs[i])
  {
    hide HistoryOf, MaxHistory;
    BringToFront(qs, i);
    MaxHistoryIs([qs[i]] + qs[..i] + qs[i + 1..]);
  }

  // ---- Readers, announcements and writers -------------------------------------------------

  lemma ReaderPermuted(a: seq<Qos>, b: seq<Qos>, fallback: Qos, multiplier: nat)
    requires Permuted(a, b) && KeepAllAgree(a)
    ensures SameRouteQos(ReaderQos(a, fallback, multiplier), ReaderQos(b, fallback, multiplier), true)
  {
    hide RouteHistory, IsReliable;
    SameElements(a, b);
    RouteHistoryPermuted(a, b, multiplier);
  }

  /** Whichever order the local Writers are listed in, both Readers can be kept. */
  lemma ReadersOrderFree(a: seq<Qos>, b: seq<Qos>, fallback: Qos, multiplier: nat)
    requires Permuted(a, b) && KeepAllAgree(a)
    ensures var (r, r2) := ReadersQos(a, fallback, multiplier);
            var (s, s2) := ReadersQos(b, fallback, multiplier);
            SameRouteQos(r, s, true) && SameOption(r2, s2, true)
  {
    hide ReaderQos, SameRouteQos;
    GroupsPermuted(a, b);
    ReaderPermuted(a, b, fallback, multiplier);
    ReaderPermuted(TransientLocals(a), TransientLocals(b), fallback, multiplier);
    ReaderPermuted(Volatiles(a), Volatiles(b), fallback, multiplier);
  }

  lemma GroupsPermuted(a: seq<Qos>, b: seq<Qos>)
    requires Permuted(a, b) && KeepAllAgree(a)
    ensures Permuted(TransientLocals(a), TransientLocals(b)) && Permuted(Volatiles(a), Volatiles(b))
    ensures KeepAllAgree(TransientLocals(a)) && KeepAllAgree(Volatiles(a)) && Mixed(a) == Mixed(b)
  {
    hide HistoryOf;
    WherePermuted(a, b, IsTransientLocal);
    WherePermuted(a, b, (q: Qos) => !IsTransientLocal(q));
    SameElements(TransientLocals(a), TransientLocals(b));
    SameElements(Volatiles(a), Volatiles(b));
    WhereHas(a, IsTransientLocal);
    WhereHas(a, (q: Qos) => !IsTransientLocal(q));
  }

  /** Announcements that tell the same to remote bridges. */
  predicate SameAnnouncement(a: Qos, b: Qos) {
    a.reliability == b.reliability && a.durability == b.durability && a.history == b.history
  }

  lemma AnnouncedPermuted(a: seq<Qos>, b: seq<Qos>, multiplier: nat)
    requires Permuted(a, b) && KeepAllAgree(a)
    ensures SameAnnouncement(AnnouncedQos(a, multiplier), AnnouncedQos(b, multiplier))
  {
    hide RouteHistory, IsReliable, IsTransientLocal;
    SameElements(a, b);
    RouteHistoryPermuted(a, b, multiplier);
  }

  lemma AnnouncedOrderFree(a: seq<Qos>, b: seq<Qos>, multiplier: nat)
    requires Permuted(a, b) && KeepAllAgree(a)
    ensures var (q, q2) := AnnouncedQoses(a, multiplier);
            var (p, p2) := AnnouncedQoses(b, multiplier);
            SameAnnouncement(q, p) && (q2.Some? <==> p2.Some?) && (q2.Some? ==> SameAnnouncement(q2.value, p2.value))
  {
    hide AnnouncedQos;
    GroupsPermuted(a, b);
    AnnouncedPermuted(a, b, multiplier);
    AnnouncedPermuted(TransientLocals(a), TransientLocals(b), multiplier);
    AnnouncedPermuted(Volatiles(a), Volatiles(b), multiplier);
  }

  predicate ServicesAgree(qs: seq<Qos>) {
    forall a, b | a in qs && b in qs :: ServiceHistory(a) == ServiceHistory(b)
  }

  /** A derived history is valid as it stands. */
  lemma RouteHistoryValid(qs: seq<Qos>, multiplier: nat, q: Qos)
    requires q.history == Some(RouteHistory(qs, multiplier))
    ensures HistoryOf(q) == RouteHistory(qs, multiplier)
  {
    var h, tl := RouteHistory(qs, multiplier), TransientLocals(qs);
    if qs != [] {
      MaxHistoryIs(qs);
    }
    if h.kind.KeepLast? && tl != [] {
      WhereHas(qs, IsTransientLocal);
      assert tl[0] in tl;
      DepthSumPositive(tl);
      var m := if |tl| > 1 then Max(multiplier, 1) else 1;
      Products(m, DepthSum(tl));
    }
  }

  /** One announcement is the same for every order exactly if KEEP_ALL depths and durability services agree. */
  lemma GroupKeptIff(qs: seq<Qos>, multiplier: nat)
    ensures (forall p | Permuted(qs, p) ::
               SameRouteQos(AnnouncedQos(p, multiplier), AnnouncedQos(qs, multiplier), false))
            <==> KeepAllAgree(qs) && ServicesAgree(qs)
  {
    hide RouteHistory, IsReliable, KeepAllAgree, HistoryOf;
    HistoryOrderFree(qs, multiplier);
    forall p | Permuted(qs, p)
      ensures SameRouteQos(AnnouncedQos(p, multiplier), AnnouncedQos(qs, multiplier), false)
         <==> RouteHistory(p, multiplier) == RouteHistory(qs, multiplier)
              && (qs == [] || ServiceHistory(p[0]) == ServiceHistory(qs[0]))
      ensures qs != [] ==> p != [] && p[0] in qs
    {
      SameElements(qs, p);
      RouteHistoryValid(p, multiplier, AnnouncedQos(p, multiplier));
      RouteHistoryValid(qs, multiplier, AnnouncedQos(qs, multiplier));
      SameDerived(qs, p, multiplier);
      assert p != [] ==> p[0] in p;
    }
    forall a, b | a in qs && b in qs && ServiceHistory(a) != ServiceHistory(b)
      ensures exists p | Permuted(qs, p) :: p != [] && ServiceHistory(p[0]) != ServiceHistory(qs[0])
    {
      var c := if ServiceHistory(a) != ServiceHistory(qs[0]) then a else b;
      var i :| 0 <= i < |qs| && qs[i] == c;
      BringToFront(qs, i);
    }
  }

  lemma SameDerived(a: seq<Qos>, b: seq<Qos>, multiplier: nat)
    requires Permuted(a, b)
    ensures var q, p := AnnouncedQos(a, multiplier), AnnouncedQos(b, multiplier);
            q.reliability == p.reliability && q.durability == p.durability
  {
    hide RouteHistory, IsReliable, IsTransientLocal;
    SameElements(a, b);
  }

  /** Nothing has to be announced anew. */
  predicate SameAnnouncements(a: (Qos, Option<Qos>), b: (Qos, Option<Qos>)) {
    SameRouteQos(a.0, b.0, false) && SameOption(a.1, b.1, false)
  }

  /**
   * What a route announces is kept for every order of its Writers exactly if their KEEP_ALL depths and durability
   * services agree; with mixed durabilities, among the Writers of each durability.
   */
  lemma AnnouncedKeptIff(qs: seq<Qos>, multiplier: nat)
    ensures (forall p | Permuted(qs, p) ::
               SameAnnouncements(AnnouncedQoses(p, multiplier), AnnouncedQoses(qs, multiplier)))
            <==> if Mixed(qs) then KeepAllAgree(TransientLocals(qs)) && ServicesAgree(TransientLocals(qs))
                                   && KeepAllAgree(Volatiles(qs)) && ServicesAgree(Volatiles(qs))
                 else KeepAllAgree(qs) && ServicesAgree(qs)
  {
    hide AnnouncedQos, SameRouteQos, KeepAllAgree, ServicesAgree, TransientLocals, Volatiles, Mixed;
    forall p | Permuted(qs, p) ensures Mixed(p) == Mixed(qs) {
      SplitPermuted(qs, p);
    }
    if Mixed(qs) {
      MixedKeptIff(qs, multiplier);
    } else {
      GroupKeptIff(qs, multiplier);
    }
  }

  lemma MixedKeptIff(qs: seq<Qos>, multiplier: nat)
    requires Mixed(qs)
    ensures (forall p | Permuted(qs, p) ::
               SameAnnouncements(AnnouncedQoses(p, multiplier), AnnouncedQoses(qs, multiplier)))
            <==> KeepAllAgree(TransientLocals(qs)) && ServicesAgree(TransientLocals(qs))
                 && KeepAllAgree(Volatiles(qs)) && ServicesAgree(Volatiles(qs))
  {
    hide AnnouncedQos, SameRouteQos, KeepAllAgree, ServicesAgree, TransientLocals, Volatiles, Mixed;
    var tl, volatile := TransientLocals(qs), Volatiles(qs);
    GroupKeptIff(tl, multiplier);
    GroupKeptIff(volatile, multiplier);
    forall p | Permuted(qs, p)
      ensures Permuted(tl, TransientLocals(p)) && Permuted(volatile, Volatiles(p)) && Mixed(p)
    {
      SplitPermuted(qs, p);
    }
    if forall p | Permuted(qs, p) :: SameAnnouncements(AnnouncedQoses(p, multiplier), AnnouncedQoses(qs, multiplier)) {
      forall t | Permuted(tl, t)
        ensures SameRouteQos(AnnouncedQos(t, multiplier), AnnouncedQos(tl, multiplier), false)
      {
        Rejoined(qs, t, volatile);
        assert AnnouncedQoses(t + volatile, multiplier).0 == AnnouncedQos(t, multiplier);
      }
      forall v | Permuted(volatile, v)
        ensures SameRouteQos(AnnouncedQos(v, multiplier), AnnouncedQos(volatile, multiplier), false)
      {
        Rejoined(qs, tl, v);
        assert AnnouncedQoses(tl + v, multiplier).1 == Some(AnnouncedQos(v, multiplier));
      }
    }
  }

  /** A Reader can be kept for every order of its Writers exactly if their KEEP_ALL depths agree. */
  lemma ReaderKeptIff(qs: seq<Qos>, fallback: Qos, multiplier: nat)
    ensures (forall p | Permuted(qs, p) ::
               SameRouteQos(ReaderQos(p, fallback, multiplier), ReaderQos(qs, fallback, multiplier), true))
            <==> KeepAllAgree(qs)
  {
    hide RouteHistory, IsReliable, KeepAllAgree, HistoryOf;
    HistoryOrderFree(qs, multiplier);
    forall p | Permuted(qs, p)
      ensures SameRouteQos(ReaderQos(p, fallback, multiplier), ReaderQos(qs, fallback, multiplier), true)
         <==> RouteHistory(p, multiplier) == RouteHistory(qs, multiplier)
    {
      SameElements(qs, p);
      RouteHistoryValid(p, multiplier, ReaderQos(p, fallback, multiplier));
      RouteHistoryValid(qs, multiplier, ReaderQos(qs, fallback, multiplier));
    }
  }

  predicate SameReaders(a: (Qos, Option<Qos>), b: (Qos, Option<Qos>)) {
    SameRouteQos(a.0, b.0, true) && SameOption(a.1, b.1, true)
  }

  /** Both Readers can, exactly if they agree among the Writers each Reader is for. */
  lemma ReadersKeptIff(qs: seq<Qos>, fallback: Qos, multiplier: nat)
    ensures (forall p | Permuted(qs, p) ::
               SameReaders(ReadersQos(p, fallback, multiplier), ReadersQos(qs, fallback, multiplier)))
            <==> if Mixed(qs) then KeepAllAgree(TransientLocals(qs)) && KeepAllAgree(Volatiles(qs))
                 else KeepAllAgree(qs)
  {
    hide ReaderQos, SameRouteQos, KeepAllAgree, TransientLocals, Volatiles, Mixed;
    var tl, volatile := TransientLocals(qs), Volatiles(qs);
    forall p | Permuted(qs, p)
      ensures Permuted(tl, TransientLocals(p)) && Permuted(volatile, Volatiles(p)) && Mixed(p) == Mixed(qs)
    {
      SplitPermuted(qs, p);
    }
    ReaderKeptIff(qs, fallback, multiplier);
    ReaderKeptIff(tl, fallback, multiplier);
    ReaderKeptIff(volatile, fallback, multiplier);
    if Mixed(qs) && forall p | Permuted(qs, p) ::
        SameReaders(ReadersQos(p, fallback, multiplier), ReadersQos(qs, fallback, multiplier)) {
      forall t | Permuted(tl, t)
        ensures SameRouteQos(ReaderQos(t, fallback, multiplier), ReaderQos(tl, fallback, multiplier), true)
      {
        Rejoined(qs, t, volatile);
        assert ReadersQos(t + volatile, fallback, multiplier).0 == ReaderQos(t, fallback, multiplier);
      }
      forall v | Permuted(volatile, v)
        ensures SameRouteQos(ReaderQos(v, fallback, multiplier), ReaderQos(volatile, fallback, multiplier), true)
      {
        Rejoined(qs, tl, v);
        assert ReadersQos(tl + v, fallback, multiplier).1 == Some(ReaderQos(v, fallback, multiplier));
      }
    }
  }

  /** Two KEEP_ALL publishers with different depths: whichever comes first decides. */
  lemma FirstDepthWins(multiplier: nat)
    ensures var a, b := DEFAULT_QOS.(history := Some(History(KeepAll, 1))),
                        DEFAULT_QOS.(history := Some(History(KeepAll, 2)));
            RouteHistory([a, b], multiplier) == History(KeepAll, 1)
            && RouteHistory([b, a], multiplier) == History(KeepAll, 2)
  {
    var a, b := DEFAULT_QOS.(history := Some(History(KeepAll, 1))),
                DEFAULT_QOS.(history := Some(History(KeepAll, 2)));
    MaxHistoryIs([a, b]);
    MaxHistoryIs([b, a]);
  }

  /** Two Writers with different durability services: the first one's is announced. */
  lemma FirstServiceWins(d: DurabilityService, multiplier: nat)
    ensures var a, b := DEFAULT_QOS.(durabilityService := Some(d)), DEFAULT_QOS;
            !SameRouteQos(AnnouncedQoses([a, b], multiplier).0, AnnouncedQoses([b, a], multiplier).0, false)
  {
    hide RouteHistory, HistoryOf;
    var a, b := DEFAULT_QOS.(durabilityService := Some(d)), DEFAULT_QOS;
    WhereNone([a, b], IsTransientLocal);
    WhereNone([b, a], IsTransientLocal);
  }

  lemma SplitPermuted(a: seq<Qos>, b: seq<Qos>)
    requires Permuted(a, b)
    ensures Permuted(TransientLocals(a), TransientLocals(b)) && Permuted(Volatiles(a), Volatiles(b))
    ensures Mixed(a) == Mixed(b)
  {
    WherePermuted(a, b, IsTransientLocal);
    WherePermuted(a, b, (q: Qos) => !IsTransientLocal(q));
    SameElements(TransientLocals(a), TransientLocals(b));
    SameElements(Volatiles(a), Volatiles(b));
  }

  /** Orders of the two durabilities make an order of all Writers. */
  lemma Rejoined(qs: seq<Qos>, t: seq<Qos>, v: seq<Qos>)
    requires Permuted(TransientLocals(qs), t) && Permuted(Volatiles(qs), v)
    ensures Permuted(qs, t + v) && TransientLocals(t + v) == t && Volatiles(t + v) == v
  {
    hide Where;
    var durable, not := IsTransientLocal, (q: Qos) => !IsTransientLocal(q);
    WhereHas(qs, durable);
    WhereHas(qs, not);
    SameElements(TransientLocals(qs), t);
    SameElements(Volatiles(qs), v);
    forall q ensures multiset(qs)[q] == multiset(t + v)[q] {
      WhereCounts(qs, durable, q);
      WhereCounts(qs, not, q);
    }
    WhereConcat(t, v, durable);
    WhereConcat(t, v, not);
    WhereAll(t, durable);
    WhereAll(v, not);
    WhereNone(v, durable);
    WhereNone(t, not);
  }

  lemma {:induction false} WhereConcat(a: seq<Qos>, b: seq<Qos>, p: Qos -> bool)
    ensures Where(a + b, p) == Where(a, p) + Where(b, p)
    decreases a
  {
    if a == [] {
      assert a + b == b;
    } else {
      var head := if p(a[0]) then [a[0]] else [];
      assert (a + b)[1..] == a[1..] + b && (a + b)[0] == a[0];
      WhereConcat(a[1..], b, p);
      assert Where(a + b, p) == head + Where(a[1..] + b, p) && Where(a, p) == head + Where(a[1..], p);
    }
  }

  lemma WhereNone(qs: seq<Qos>, p: Qos -> bool)
    requires forall q | q in qs :: !p(q)
    ensures Where(qs, p) == []
  {
    WhereHas(qs, p);
    assert Where(qs, p) != [] ==> Where(qs, p)[0] in Where(qs, p);
  }

  lemma WriterPermuted(a: seq<Qos>, b: seq<Qos>)
    requires Permuted(a, b) && KeepAllAgree(a)
    ensures SameRouteQos(WriterQos(a), WriterQos(b), false)
  {
    hide RouteHistory, IsReliable;
    SameElements(a, b);
    RouteHistoryPermuted(a, b, 1);
  }

  lemma {:induction false} PartCounts(of: seq<Remote>, all: seq<Remote>, moved: bool)
    ensures Part(of, all, moved) == QosOf(Chosen(of, all, moved))
  {
    if of != [] {
      PartCounts(of[1..], all, moved);
      QosOfConcat(if Moved(all, of[0]) == moved then [of[0]] else [], Chosen(of[1..], all, moved));
      assert QosOf([of[0]]) == [of[0].qos] + QosOf([]);
    }
  }

  function Chosen(of: seq<Remote>, all: seq<Remote>, moved: bool): seq<Remote> {
    if of == [] then [] else (if Moved(all, of[0]) == moved then [of[0]] else []) + Chosen(of[1..], all, moved)
  }

  function QosOf(rs: seq<Remote>): seq<Qos> {
    if rs == [] then [] else [rs[0].qos] + QosOf(rs[1..])
  }

  lemma {:induction false} ChosenCounts(of: seq<Remote>, all: seq<Remote>, moved: bool, r: Remote)
    ensures multiset(Chosen(of, all, moved))[r] == if Moved(all, r) == moved then multiset(of)[r] else 0
  {
    if of != [] {
      assert of == [of[0]] + of[1..];
      ChosenCounts(of[1..], all, moved, r);
    }
  }

  lemma {:induction false} QosOfConcat(a: seq<Remote>, b: seq<Remote>)
    ensures QosOf(a + b) == QosOf(a) + QosOf(b)
    decreases a
  {
    if a == [] {
      assert a + b == b;
    } else {
      assert (a + b)[1..] == a[1..] + b && (a + b)[0] == a[0];
      QosOfConcat(a[1..], b);
    }
  }

  lemma QosOfMiddle(front: seq<Remote>, r: Remote, back: seq<Remote>)
    ensures QosOf(front + [r] + back) == QosOf(front) + [r.qos] + QosOf(back)
  {
    QosOfConcat(front + [r], back);
    QosOfConcat(front, [r]);
    assert QosOf([r]) == [r.qos] + QosOf([]);
  }

  lemma {:induction false} QosOfPermuted(a: seq<Remote>, b: seq<Remote>)
    requires Permuted(a, b)
    ensures Permuted(QosOf(a), QosOf(b))
    decreases a
  {
    if a == [] {
      SameElements(a, b);
    } else {
      var i := Unpermute(a, b);
      var front, back := b[..i], b[i + 1..];
      QosOfPermuted(a[1..], front + back);
      QosOfConcat(front, back);
      QosOfMiddle(front, b[i], back);
    }
  }

  lemma PartPermuted(a: seq<Remote>, b: seq<Remote>, moved: bool)
    requires Permuted(a, b)
    ensures Permuted(Part(a, a, moved), Part(b, b, moved))
  {
    hide IsTransientLocal;
    SameElements(a, b);
    forall r ensures multiset(Chosen(a, a, moved))[r] == multiset(Chosen(b, b, moved))[r] {
      ChosenCounts(a, a, moved, r);
      ChosenCounts(b, b, moved, r);
      assert Moved(a, r) == Moved(b, r);
    }
    QosOfPermuted(Chosen(a, a, moved), Chosen(b, b, moved));
    PartCounts(a, a, moved);
    PartCounts(b, b, moved);
  }

  lemma {:induction false} PartHas(of: seq<Remote>, all: seq<Remote>, moved: bool)
    ensures forall q :: q in Part(of, all, moved) <==> exists r | r in of :: r.qos == q && Moved(all, r) == moved
  {
    hide Moved;
    if of != [] {
      assert of == [of[0]] + of[1..];
      PartHas(of[1..], all, moved);
    }
  }

  ghost predicate RemotesAgree(rs: seq<Remote>) {
    forall a, b | a in rs && b in rs && HistoryOf(a.qos).kind.KeepAll? && HistoryOf(b.qos).kind.KeepAll? ::
      HistoryOf(a.qos).depth == HistoryOf(b.qos).depth
  }

  /** Whichever order the remote announcements come in, both DDS Writers can be kept. */
  lemma WritersOrderFree(a: seq<Remote>, b: seq<Remote>)
    requires Permuted(a, b) && RemotesAgree(a)
    ensures var (w, w2) := WritersQos(a);
            var (v, v2) := WritersQos(b);
            SameRouteQos(w, v, false) && SameOption(w2, v2, false)
  {
    hide WriterQos, SameRouteQos, HistoryOf, Moved;
    forall moved ensures KeepAllAgree(Part(a, a, moved)) {
      PartHas(a, a, moved);
    }
    PartPermuted(a, b, false);
    PartPermuted(a, b, true);
    SameElements(Part(a, a, true), Part(b, b, true));
    WriterPermuted(Part(a, a, false), Part(b, b, false));
    WriterPermuted(Part(a, a, true), Part(b, b, true));
  }

  /**
   * The main Writer is TRANSIENT_LOCAL iff some announcement is; a VOLATILE one exists iff some bridge
   * announces both.
   */
  lemma WritersDurability(remotes: seq<Remote>)
    ensures var (main, volatile) := WritersQos(remotes);
            (IsTransientLocal(main) <==> exists r | r in remotes :: IsTransientLocal(r.qos))
            && (volatile.Some? <==> exists r | r in remotes :: Marks(remotes, r.bridge))
            && (volatile.Some? ==> !IsTransientLocal(volatile.value))
  {
    hide RouteHistory;
    PartHas(remotes, remotes, false);
    PartHas(remotes, remotes, true);
    var kept, moved := Part(remotes, remotes, false), Part(remotes, remotes, true);
    if moved != [] {
      assert moved[0] in moved;
    }
    if r :| r in remotes && Marks(remotes, r.bridge) {
      var m :| m in remotes && m.bridge == r.bridge && !IsTransientLocal(m.qos);
      assert Moved(remotes, m) && m.qos in moved;
    }
    if r :| r in remotes && IsTransientLocal(r.qos) {
      assert r.qos in kept;
    }
  }

  // ---- One depth end to end ---------------------------------------------------------------

  /** `tl_cache_size` of a topic route, whose Reader depth already includes the multiplier. None stands for no bound. */
  function CacheSize(q: Qos, keyless: bool, multiplier: nat): Option<nat> {
    if !IsTransientLocal(q) then Some(0)
    else
      var h := if q.history.Some? then q.history.value else DEFAULT_HISTORY;
      var maxInstances := if q.durabilityService.Some? then q.durabilityService.value.maxInstances
          else DDS_LENGTH_UNLIMITED;
      if h.kind.KeepAll? || (!keyless && maxInstances == DDS_LENGTH_UNLIMITED) then
        if multiplier == 0 then Some(0) else None
      else
        var n := Max(h.depth, 1);
        Some((if !keyless && maxInstances > 0 then SaturatingMulI32(n, maxInstances) else n) * multiplier)
  }

  /** `i32::saturating_mul` of two positive numbers. */
  function SaturatingMulI32(a: nat, b: nat): nat {
    Min(a * b, 0x7FFF_FFFF)
  }

  /** How much remote history a subscriber route asks for. None stands for no bound. */
  function MaxSamples(q: Qos): Option<nat> {
    if q.history.None? then Some(1)
    else if q.history.value.kind.KeepAll? then None
    else Some(Max(q.history.value.depth, 1))
  }

  /** The depth a topic with these TRANSIENT_LOCAL Writers is bridged with. */
  function BridgedDepth(tl: seq<Qos>, multiplier: nat): int {
    Min(MAX_TL_DEPTH, (if |tl| > 1 then Max(multiplier, 1) else 1) * DepthSum(tl))
  }

  lemma {:induction false} WhereAll(qs: seq<Qos>, p: Qos -> bool)
    requires forall q | q in qs :: p(q)
    ensures Where(qs, p) == qs
  {
    if qs != [] {
      assert qs[0] in qs && qs == [qs[0]] + qs[1..];
      WhereAll(qs[1..], p);
    }
  }

  lemma TransientLocalHistory(tl: seq<Qos>, multiplier: nat)
    requires tl != [] && forall q | q in tl :: IsTransientLocal(q) && HistoryOf(q).kind.KeepLast?
    ensures 1 <= BridgedDepth(tl, multiplier) <= MAX_TL_DEPTH
    ensures RouteHistory(tl, multiplier) == History(KeepLast, BridgedDepth(tl, multiplier))
  {
    hide HistoryOf, MaxHistory;
    WhereAll(tl, IsTransientLocal);
    MaxHistoryIs(tl);
    DepthSumPositive(tl);
    var m := if |tl| > 1 then Max(multiplier, 1) else 1;
    assert m * DepthSum(tl) == DepthSum(tl) * m && m * DepthSum(tl) >= 1 by { Products(m, DepthSum(tl)); }
  }

  lemma Products(m: int, d: int)
    requires m >= 1 && d >= 1
    ensures m * d == d * m && m * d >= 1
  {
  }

  lemma MixedGroup(writers: seq<Qos>)
    requires TransientLocals(writers) != []
    ensures !Mixed(writers) ==> TransientLocals(writers) == writers
  {
    WhereHas(writers, (q: Qos) => !IsTransientLocal(q));
    if Volatiles(writers) == [] {
      forall w | w in writers ensures IsTransientLocal(w) {
        assert w in Volatiles(writers) <==> !IsTransientLocal(w);
      }
      WhereAll(writers, IsTransientLocal);
    }
  }

  /**
   * The TRANSIENT_LOCAL Writers of a keyless topic, all KEEP_LAST: Reader, zenoh cache, announcement,
   * remote Writer, its durability service and the history fetched have one depth, the multiplier applied once.
   */
  lemma OneDepth(writers: seq<Qos>, fallback: Qos, multiplier: nat, bridge: string)
    requires TransientLocals(writers) != [] && forall q | q in TransientLocals(writers) :: HistoryOf(q).kind.KeepLast?
    ensures var depth := BridgedDepth(TransientLocals(writers), multiplier);
            var reader, announced := ReadersQos(writers, fallback, multiplier).0, AnnouncedQoses(writers, multiplier).0;
            var writer := WritersQos([Remote(bridge, announced)]).0;
            1 <= depth <= MAX_TL_DEPTH
            && reader.history == Some(History(KeepLast, depth)) && CacheSize(reader, true, 1) == Some(depth)
            && announced.history == Some(History(KeepLast, depth))
            && writer.history == Some(History(KeepLast, depth))
            && ServiceHistory(writer) == Some(History(KeepLast, depth))
            && MaxSamples(writer) == Some(depth)
  {
    hide HistoryOf, MaxHistory, RouteHistory, BridgedDepth;
    var tl := TransientLocals(writers);
    WhereHas(writers, IsTransientLocal);
    MixedGroup(writers);
    TransientLocalHistory(tl, multiplier);
    var announced := AnnouncedQoses(writers, multiplier).0;
    assert announced == AnnouncedQos(tl, multiplier);
    assert tl[0] in tl && IsTransientLocal(announced);
    OneAnnouncement(bridge, announced);
    OneBridge(announced);
  }

  /** A single announcement stays in the main Writer. */
  lemma OneAnnouncement(bridge: string, q: Qos)
    ensures WritersQos([Remote(bridge, q)]) == (WriterQos([q]), None)
  {
    hide WriterQos, IsTransientLocal;
    var rs := [Remote(bridge, q)];
    assert rs[1..] == [] && forall r | r in rs :: r == rs[0];
    assert !Moved(rs, rs[0]);
    assert Part(rs[1..], rs, true) == [] && Part(rs[1..], rs, false) == [];
    assert Part(rs, rs, true) == [] && Part(rs, rs, false) == [q];
  }

  lemma OneBridge(q: Qos)
    requires IsTransientLocal(q) && q.history.Some? && q.history.value.kind.KeepLast?
             && 1 <= q.history.value.depth <= MAX_TL_DEPTH
    ensures WriterQos([q]).history == q.history && ServiceHistory(WriterQos([q])) == q.history
  {
    assert forall x | x in [q] :: x == q;
    TransientLocalHistory([q], 1);
    assert [q][1..] == [] && DepthSum([]) == 0;
    assert DepthSum([q]) == q.history.value.depth;
    assert q in [q];
  }

  /** The announcements of several bridges add up, to the same cap. */
  lemma BridgesAddUp(remotes: seq<Qos>)
    requires remotes != [] && forall q | q in remotes :: IsTransientLocal(q) && HistoryOf(q).kind.KeepLast?
    ensures DepthSum(remotes) >= 1
    ensures WriterQos(remotes).history == Some(History(KeepLast, Min(MAX_TL_DEPTH, DepthSum(remotes))))
    ensures ServiceHistory(WriterQos(remotes)) == WriterQos(remotes).history
  {
    hide HistoryOf, MaxHistory, RouteHistory;
    DepthSumPositive(remotes);
    TransientLocalHistory(remotes, 1);
    assert remotes[0] in remotes;
  }
}
