/** The liveliness tokens that announce routes to remote bridges, and the QoS encoded in them. */
module Liveliness {
  import opened Wrappers
  import opened Text
  import opened Names
  import opened Qos
  import opened Decimal

  // ---- Splitting and escaping -------------------------------------------------------------

  /** `str::split` at a character. */
  function Split(s: string, c: char): (parts: seq<string>)
    ensures parts != []
  {
    if s == "" then [""]
    else if s[0] == c then [""] + Split(s[1..], c)
    else
      var rest := Split(s[1..], c);
      [[s[0]] + rest[0]] + rest[1..]
  }

  function Join(parts: seq<string>, c: char): string {
    if parts == [] then "" else if |parts| == 1 then parts[0] else parts[0] + [c] + Join(parts[1..], c)
  }

  lemma {:induction false} SplitHead(a: string, c: char, b: string)
    requires c !in a
    ensures Split(a + [c] + b, c) == [a] + Split(b, c)
  {
    var s := a + [c] + b;
    if a == "" {
      assert s[0] == c && s[1..] == b;
    } else {
      assert s[0] == a[0] && a[0] in a && s[1..] == a[1..] + [c] + b;
      SplitHead(a[1..], c, b);
      assert [a[0]] + a[1..] == a;
    }
  }

  lemma {:induction false} SplitWhole(a: string, c: char)
    requires c !in a
    ensures Split(a, c) == [a]
  {
    if a != "" {
      assert a[0] in a;
      SplitWhole(a[1..], c);
      assert [a[0]] + a[1..] == a;
    }
  }

  lemma {:induction false} SplitJoin(parts: seq<string>, c: char)
    requires parts != [] && forall p | p in parts :: c !in p
    ensures Split(Join(parts, c), c) == parts
  {
    assert parts[0] in parts;
    if |parts| == 1 {
      SplitWhole(parts[0], c);
    } else {
      SplitJoin(parts[1..], c);
      SplitHead(parts[0], c, Join(parts[1..], c));
    }
  }

  const SLASH_REPLACEMENT := '\U{00A7}'

  function EscapeSlashes(s: string): string {
    Replace(s, "/", [SLASH_REPLACEMENT])
  }

  function UnescapeSlashes(s: string): string {
    Replace(s, [SLASH_REPLACEMENT], "/")
  }

  lemma {:induction false} ReplaceChar(s: string, from: char, to: char)
    ensures |Replace(s, [from], [to])| == |s|
    ensures forall i | 0 <= i < |s| :: Replace(s, [from], [to])[i] == if s[i] == from then to else s[i]
  {
    if s != "" {
      assert StartsWith(s, [from]) <==> s[0] == from by {
        assert s[..1] == [s[0]];
      }
      ReplaceChar(s[1..], from, to);
    }
  }

  /** Escaping leaves no slash, and is undone exactly if the replacement character did not occur. */
  lemma EscapeRoundTrip(s: string)
    ensures '/' !in EscapeSlashes(s)
    ensures UnescapeSlashes(EscapeSlashes(s)) == s <==> SLASH_REPLACEMENT !in s
  {
    var e := EscapeSlashes(s);
    ReplaceChar(s, '/', SLASH_REPLACEMENT);
    ReplaceChar(e, SLASH_REPLACEMENT, '/');
    var u := UnescapeSlashes(e);
    if i :| 0 <= i < |s| && s[i] == SLASH_REPLACEMENT {
      assert u[i] == '/';
    } else {
      assert forall i | 0 <= i < |s| :: u[i] == s[i];
    }
  }

  // ---- The encoded QoS --------------------------------------------------------------------

  function ReliabilityCode(k: ReliabilityKind): nat {
    match k
    case BestEffort => 0
    case Reliable => 1
  }

  function DurabilityCode(d: Durability): nat {
    match d
    case Volatile => 0
    case TransientLocal => 1
    case Transient => 2
    case Persistent => 3
  }

  function HistoryCode(k: HistoryKind): nat {
    match k
    case KeepLast => 0
    case KeepAll => 1
  }

  /** What user data adds to the encoding; distributions before Iron leave it out. */
  function UserPart(iron: bool, q: Qos): string {
    if iron && q.userData.Some? then ":" + q.userData.value else ""
  }

  function ReliabilityPart(q: Qos): string {
    if q.reliability.Some? then PrintNat(ReliabilityCode(q.reliability.value.kind)) else ""
  }

  function DurabilityPart(q: Qos): string {
    if q.durability.Some? then PrintNat(DurabilityCode(q.durability.value)) else ""
  }

  function HistoryPart(q: Qos): string {
    if q.history.Some? then PrintNat(HistoryCode(q.history.value.kind)) + "," + PrintI32(q.history.value.depth) else ""
  }

  function KeylessPart(keyless: bool): string {
    if keyless then "" else "K"
  }

  /** `qos_to_key_expr`. */
  function EncodeQos(iron: bool, keyless: bool, q: Qos): string {
    KeylessPart(keyless) + ":"
    + (ReliabilityPart(q) + ":" + (DurabilityPart(q) + ":" + (HistoryPart(q) + UserPart(iron, q))))
  }

  /** The encoding as the bridge writes it into a buffer. */
  method WriteQos(iron: bool, keyless: bool, q: Qos) returns (w: string)
    ensures w == EncodeQos(iron, keyless, q)
  {
    hide PrintNat, PrintI32;
    w := "";
    if !keyless {
      w := w + "K";
    }
    w := w + ":";
    ghost var w1 := KeylessPart(keyless) + ":";
    assert w == w1;
    if q.reliability.Some? {
      w := w + PrintNat(ReliabilityCode(q.reliability.value.kind));
    }
    assert w == w1 + ReliabilityPart(q);
    w := w + ":";
    ghost var w2 := w;
    if q.durability.Some? {
      w := w + PrintNat(DurabilityCode(q.durability.value));
    }
    assert w == w2 + DurabilityPart(q);
    w := w + ":";
    ghost var w3 := w;
    if q.history.Some? {
      w := w + (PrintNat(HistoryCode(q.history.value.kind)) + "," + PrintI32(q.history.value.depth));
    }
    assert w == w3 + HistoryPart(q);
    ghost var w4 := w;
    if iron && q.userData.Some? {
      w := w + (":" + q.userData.value);
    }
    assert w == w4 + UserPart(iron, q);
    hide KeylessPart, ReliabilityPart, DurabilityPart, HistoryPart, UserPart;
    Regroup(KeylessPart(keyless), ReliabilityPart(q), DurabilityPart(q), HistoryPart(q), UserPart(iron, q));
  }

  lemma Regroup(a: string, b: string, c: string, d: string, e: string)
    ensures a + ":" + b + ":" + c + ":" + d + e == a + ":" + (b + ":" + (c + ":" + (d + e)))
  {
  }

  function ParseReliability(s: string): Option<Option<Reliability>> {
    if s == "" then Some(None)
    else match ParseNat(s)
      case Some(0) => Some(Some(Reliability(BestEffort, DDS_100MS_DURATION)))
      case Some(1) => Some(Some(Reliability(Reliable, DDS_100MS_DURATION)))
      case _ => None
  }

  function ParseDurability(s: string): Option<Option<Durability>> {
    if s == "" then Some(None)
    else match ParseNat(s)
      case Some(0) => Some(Some(Volatile))
      case Some(1) => Some(Some(TransientLocal))
      case Some(2) => Some(Some(Transient))
      case Some(3) => Some(Some(Persistent))
      case _ => None
  }

  lemma {:induction false} SplitLength(s: string, c: char)
    ensures |Split(s, c)| >= 2 ==> |Split(s, c)[0]| < |s|
  {
    if s != "" && s[0] != c {
      SplitLength(s[1..], c);
    }
  }

  function ParseHistory(s: string): Option<Option<History>> {
    if s == "" then Some(None)
    else
      var parts := Split(s, ',');
      SplitLength(s, ',');
      if |parts| < 2 then None
      else match (ParseNat(parts[0]), ParseI32(s[|parts[0]| + 1..]))
        case (Some(0), Some(depth)) => Some(Some(History(KeepLast, depth)))
        case (Some(1), Some(depth)) => Some(Some(History(KeepAll, depth)))
        case _ => None
  }

  /** `key_expr_to_qos`. */
  function DecodeQos(ke: string): Option<(bool, Qos)> {
    var elts := Split(ke, ':');
    if |elts| < 4 then None
    else match (ParseReliability(elts[1]), ParseDurability(elts[2]), ParseHistory(elts[3]))
      case (Some(reliability), Some(durability), Some(history)) =>
        var userData := if |elts| > 4 && elts[4] != "" then Some(elts[4]) else None;
        Some((elts[0] == "", DEFAULT_QOS.(reliability := reliability, durability := durability, history := history,
            userData := userData)))
      case _ => None
  }

  /** The part of the QoS that is encoded; the blocking time is not. */
  function Significant(q: Qos): Qos {
    DEFAULT_QOS.(reliability := if q.reliability.Some?
        then Some(q.reliability.value.(maxBlockingTime := DDS_100MS_DURATION)) else None,
                 durability := q.durability, history := q.history, userData := q.userData)
  }

  predicate EncodableUserData(q: Qos) {
    q.userData.Some? ==> q.userData.value != "" && NoColon(q.userData.value)
  }

  lemma DigitsOnly(n: nat, c: char)
    requires !('0' <= c <= '9')
    ensures c !in PrintNat(n)
  {
  }

  lemma ReliabilityParses(q: Qos)
    ensures ParseReliability(ReliabilityPart(q)) == Some(Significant(q).reliability) && NoColon(ReliabilityPart(q))
  {
  }

  lemma DurabilityParses(q: Qos)
    ensures ParseDurability(DurabilityPart(q)) == Some(q.durability) && NoColon(DurabilityPart(q))
  {
  }

  /** Any `i32` depth survives, negative ones included. */
  lemma HistoryParses(q: Qos)
    ensures ParseHistory(HistoryPart(q)) == Some(q.history) && NoColon(HistoryPart(q))
  {
    if q.history.Some? {
      var h := q.history.value;
      ParsePrintNat(HistoryCode(h.kind));
      ParsePrintI32(h.depth);
      DigitsOnly(HistoryCode(h.kind), ',');
      DigitsOnly(HistoryCode(h.kind), ':');
      hide PrintNat, PrintI32, ParseNat, ParseI32;
      PairParses(PrintNat(HistoryCode(h.kind)), PrintI32(h.depth));
    }
  }

  lemma PairParses(kind: string, depth: string)
    requires ',' !in kind
    ensures var s := kind + "," + depth; Split(s, ',')[0] == kind && |Split(s, ',')| >= 2 && s[|kind| + 1..] == depth
  {
    assert kind + "," + depth == kind + [','] + depth;
    SplitHead(kind, ',', depth);
  }

  lemma EncodedParts(iron: bool, keyless: bool, q: Qos)
    ensures Split(EncodeQos(iron, keyless, q), ':')
         == [KeylessPart(keyless), ReliabilityPart(q), DurabilityPart(q), HistoryPart(q)]
            + if iron && q.userData.Some? then Split(q.userData.value, ':') else []
  {
    ReliabilityParses(q);
    DurabilityParses(q);
    HistoryParses(q);
    hide ReliabilityPart, DurabilityPart, HistoryPart, Split, ParseReliability, ParseDurability, ParseHistory,
        Significant;
    var tail := HistoryPart(q) + UserPart(iron, q);
    SplitHead(KeylessPart(keyless), ':', ReliabilityPart(q) + ":" + (DurabilityPart(q) + ":" + tail));
    SplitHead(ReliabilityPart(q), ':', DurabilityPart(q) + ":" + tail);
    SplitHead(DurabilityPart(q), ':', tail);
    if iron && q.userData.Some? {
      assert tail == HistoryPart(q) + ":" + q.userData.value;
      SplitHead(HistoryPart(q), ':', q.userData.value);
    } else {
      assert tail == HistoryPart(q);
      SplitWhole(HistoryPart(q), ':');
    }
  }

  lemma {:induction false} FirstPart(s: string, c: char)
    ensures Split(s, c)[0] == s <==> c !in s
  {
    if s != "" {
      FirstPart(s[1..], c);
      assert s == [s[0]] + s[1..];
    }
  }

  /**
   * With Iron or later, everything significant is decoded exactly if the user data is absent, or
   * nonempty without ':'.
   */
  lemma QosRoundTrip(keyless: bool, q: Qos)
    ensures DecodeQos(EncodeQos(true, keyless, q)).Some?
    ensures DecodeQos(EncodeQos(true, keyless, q)) == Some((keyless, Significant(q))) <==> EncodableUserData(q)
  {
    EncodedParts(true, keyless, q);
    ReliabilityParses(q);
    DurabilityParses(q);
    HistoryParses(q);
    if q.userData.Some? {
      FirstPart(q.userData.value, ':');
    }
    hide EncodeQos, Split, ReliabilityPart, DurabilityPart, HistoryPart, ParseReliability, ParseDurability,
        ParseHistory;
    var elts := Split(EncodeQos(true, keyless, q), ':');
    assert q.userData.Some? ==> elts[4] == Split(q.userData.value, ':')[0];
  }

  /** Before Iron, all but the user data survives. */
  lemma QosRoundTripBeforeIron(keyless: bool, q: Qos)
    ensures DecodeQos(EncodeQos(false, keyless, q)) == Some((keyless, Significant(q).(userData := None)))
  {
    EncodedParts(false, keyless, q);
    ReliabilityParses(q);
    DurabilityParses(q);
    HistoryParses(q);
    hide EncodeQos, Split, ReliabilityPart, DurabilityPart, HistoryPart, ParseReliability, ParseDurability,
        ParseHistory;
  }

  /** Encodings coincide exactly when everything significant does. */
  lemma EncodingDistinguishes(k: bool, q: Qos, k': bool, q': Qos)
    requires EncodableUserData(q) && EncodableUserData(q')
    ensures EncodeQos(true, k, q) == EncodeQos(true, k', q') <==> k == k' && Significant(q) == Significant(q')
  {
    QosRoundTrip(k, q);
    QosRoundTrip(k', q');
    hide DecodeQos;
  }

  /** `remote_publisher_key`. */
  function RemotePublisherKey(zid: string, ke: string, keyless: bool, q: Qos): string {
    zid + ":" + ke + ":" + EncodeQos(true, keyless, q)
  }

  /**
   * The key of a remote publisher tells apart exactly the announcements of different bridges, keys or
   * significant QoS.
   */
  lemma PublisherKeyDistinguishes(z: string, ke: string, k: bool, q: Qos, z': string, ke': string, k': bool, q': Qos)
    requires NoColon(z) && NoColon(z') && NoColon(ke) && NoColon(ke') && EncodableUserData(q) && EncodableUserData(q')
    ensures RemotePublisherKey(z, ke, k, q) == RemotePublisherKey(z', ke', k', q')
       <==> z == z' && ke == ke' && k == k' && Significant(q) == Significant(q')
  {
    EncodingDistinguishes(k, q, k', q');
    var e, e' := EncodeQos(true, k, q), EncodeQos(true, k', q');
    hide EncodeQos;
    assert z + ":" + ke + ":" + e == z + ":" + (ke + ":" + e)
        && z' + ":" + ke' + ":" + e' == z' + ":" + (ke' + ":" + e');
    if z + ":" + (ke + ":" + e) == z' + ":" + (ke' + ":" + e') {
      HeadUnique(z, z', ke + ":" + e, ke' + ":" + e');
      HeadUnique(ke, ke', e, e');
    }
  }

  // ---- Tokens -----------------------------------------------------------------------------

  datatype Token = Token(zid: string, ke: string, typ: string, keyless: bool, qos: Qos)

  /** The kinds of topic tokens. */
  datatype TokenKind = MP | MS

  function KindName(k: TokenKind): string {
    match k
    case MP => "MP"
    case MS => "MS"
  }

  function TokenParts(kind: TokenKind, t: Token): seq<string> {
    ["@", t.zid, "@ros2_lv", KindName(kind), EscapeSlashes(t.ke), EscapeSlashes(t.typ),
        EncodeQos(true, t.keyless, t.qos)]
  }

  function PrintToken(kind: TokenKind, t: Token): string {
    Join(TokenParts(kind, t), '/')
  }

  /** What zenoh's formatter accepts as a part of a key expression: certainly not nothing, and no more than one part. */
  type Formatter = string -> bool

  ghost predicate OnePartOnly(accepts: Formatter) {
    forall s | accepts(s) :: s != "" && '/' !in s
  }

  predicate Accepted(accepts: Formatter, t: Token) {
    accepts(t.zid) && accepts(EscapeSlashes(t.ke)) && accepts(EscapeSlashes(t.typ))
    && accepts(EncodeQos(true, t.keyless, t.qos))
  }

  /** `new_ke_liveliness_pub` and `new_ke_liveliness_sub`. */
  function NewToken(accepts: Formatter, kind: TokenKind, t: Token): Option<string> {
    if Accepted(accepts, t) then Some(PrintToken(kind, t)) else None
  }

  /** `parse_ke_liveliness_pub` and `parse_ke_liveliness_sub`. */
  function ParseToken(kind: TokenKind, s: string): Option<Token> {
    var parts := Split(s, '/');
    if |parts| != 7 || parts[0] != "@" || parts[2] != "@ros2_lv" || parts[3] != KindName(kind) then None
    else match DecodeQos(parts[6])
      case None => None
      case Some((keyless, qos)) => Some(Token(parts[1], UnescapeSlashes(parts[4]), UnescapeSlashes(parts[5]), keyless,
          qos))
  }

  function Count(s: string, c: char): nat {
    if s == "" then 0 else (if s[0] == c then 1 else 0) + Count(s[1..], c)
  }

  lemma {:induction false} CountConcat(a: string, b: string, c: char)
    ensures Count(a + b, c) == Count(a, c) + Count(b, c)
    decreases a
  {
    if a == "" {
      assert a + b == b;
    } else {
      assert (a + b)[1..] == a[1..] + b && (a + b)[0] == a[0];
      CountConcat(a[1..], b, c);
    }
  }

  lemma {:induction false} CountZero(s: string, c: char)
    ensures Count(s, c) == 0 <==> c !in s
    ensures |Split(s, c)| == Count(s, c) + 1
  {
    if s != "" {
      assert s == [s[0]] + s[1..];
      CountZero(s[1..], c);
    }
  }

  lemma {:induction false} CountJoin(parts: seq<string>, c: char, p: string)
    requires p in parts && c in p
    ensures Count(Join(parts, c), c) >= |parts|
  {
    assert parts == [parts[0]] + parts[1..];
    CountZero(p, c);
    if |parts| > 1 {
      assert parts[0] + [c] + Join(parts[1..], c) == parts[0] + ([c] + Join(parts[1..], c));
      CountConcat(parts[0], [c] + Join(parts[1..], c), c);
      CountConcat([c], Join(parts[1..], c), c);
      assert Count([c], c) == 1 + Count("", c);
      if p in parts[1..] {
        CountJoin(parts[1..], c, p);
      } else {
        CountAtLeast(parts[1..], c);
      }
    }
  }

  lemma {:induction false} CountAtLeast(parts: seq<string>, c: char)
    ensures Count(Join(parts, c), c) + 1 >= |parts|
  {
    if |parts| > 1 {
      assert parts[0] + [c] + Join(parts[1..], c) == parts[0] + ([c] + Join(parts[1..], c));
      CountConcat(parts[0], [c] + Join(parts[1..], c), c);
      CountConcat([c], Join(parts[1..], c), c);
      assert Count([c], c) == 1 + Count("", c);
      CountAtLeast(parts[1..], c);
    }
  }

  lemma EncodingHasNoSlash(keyless: bool, q: Qos)
    ensures '/' in EncodeQos(true, keyless, q) <==> q.userData.Some? && '/' in q.userData.value
  {
  }

  /** Key and type are without the replacement character; user data is absent, or nonempty without ':' and '/'. */
  predicate Printable(t: Token) {
    SLASH_REPLACEMENT !in t.ke && SLASH_REPLACEMENT !in t.typ && EncodableUserData(t.qos)
    && (t.qos.userData.Some? ==> '/' !in t.qos.userData.value)
  }

  /**
   * Whatever the formatter accepts, a token is made and parsed back to the same bridge, key, type, keyless flag and
   * significant QoS exactly when its parts are accepted and it is printable.
   */
  lemma TokenRoundTrip(accepts: Formatter, kind: TokenKind, t: Token)
    requires OnePartOnly(accepts)
    ensures var made := NewToken(accepts, kind, t);
            made.Some? && ParseToken(kind, made.value) == Some(t.(qos := Significant(t.qos)))
            <==> Accepted(accepts, t) && Printable(t)
  {
    hide PrintToken, ParseToken, Printable, Significant, EscapeSlashes, EncodeQos;
    if Accepted(accepts, t) {
      PrintedRoundTrip(kind, t);
    }
  }

  lemma PrintedRoundTrip(kind: TokenKind, t: Token)
    requires '/' !in t.zid
    ensures ParseToken(kind, PrintToken(kind, t)) == Some(t.(qos := Significant(t.qos))) <==> Printable(t)
  {
    hide EncodeQos, DecodeQos, EscapeSlashes, UnescapeSlashes, Join, Significant, Split, ParseToken, EncodableUserData;
    EscapeRoundTrip(t.ke);
    EscapeRoundTrip(t.typ);
    QosRoundTrip(t.keyless, t.qos);
    if t.qos.userData.Some? && '/' in t.qos.userData.value {
      SlashedFails(kind, t);
    } else {
      PartsPlain(kind, t);
      SplitJoin(TokenParts(kind, t), '/');
      PartsParse(kind, PrintToken(kind, t), TokenParts(kind, t));
    }
  }

  /** A slash in the user data makes one part too many. */
  lemma SlashedFails(kind: TokenKind, t: Token)
    requires t.qos.userData.Some? && '/' in t.qos.userData.value
    ensures ParseToken(kind, PrintToken(kind, t)).None?
  {
    EncodingHasNoSlash(t.keyless, t.qos);
    hide EncodeQos, DecodeQos, EscapeSlashes, Join, Split;
    CountJoin(TokenParts(kind, t), '/', EncodeQos(true, t.keyless, t.qos));
    CountZero(PrintToken(kind, t), '/');
  }

  lemma PartsPlain(kind: TokenKind, t: Token)
    requires '/' !in t.zid && (t.qos.userData.Some? ==> '/' !in t.qos.userData.value)
    ensures forall p | p in TokenParts(kind, t) :: '/' !in p
  {
    EscapeRoundTrip(t.ke);
    EscapeRoundTrip(t.typ);
    EncodingHasNoSlash(t.keyless, t.qos);
    hide EncodeQos, EscapeSlashes;
  }

  lemma PartsParse(kind: TokenKind, s: string, parts: seq<string>)
    requires Split(s, '/') == parts && |parts| == 7 && DecodeQos(parts[6]).Some?
    requires parts[0] == "@" && parts[2] == "@ros2_lv" && parts[3] == KindName(kind)
    ensures ParseToken(kind, s) == Some(Token(parts[1], UnescapeSlashes(parts[4]), UnescapeSlashes(parts[5]),
                                              DecodeQos(parts[6]).value.0, DecodeQos(parts[6]).value.1))
  {
    hide DecodeQos, UnescapeSlashes, Split, KindName;
  }

  /** A publisher token is not taken for a subscriber token, nor the other way round. */
  lemma KindsDisjoint(kind: TokenKind, other: TokenKind, s: string)
    requires ParseToken(kind, s).Some? && ParseToken(other, s).Some?
    ensures kind == other
  {
  }
}
