/** The mapping between ROS 2 interface names and zenoh key expressions, under a configured namespace. */
module Names {
  import opened Wrappers
  import opened Text

  /** A namespace as the configuration has it: absolute, "/" meaning none. */
  predicate ValidNamespace(ns: string) {
    StartsWith(ns, "/")
  }

  /** `ros2_name_to_key_expr`. The source slices off the first character, so there has to be one. */
  function KeyOf(ns: string, name: string): string
    requires ValidNamespace(ns) && name != ""
  {
    if ns == "/" then name[1..] else ns[1..] + "/" + name[1..]
  }

  /** `key_expr_to_ros2_name`. */
  function NameOf(ns: string, ke: string): string
    requires ValidNamespace(ns)
  {
    if ns == "/" then "/" + ke
    else match StripPrefix(ke, ns[1..])
      case Some(s) => s
      case None => "/" + ke
  }

  /** The key expression lies under the namespace. */
  predicate Under(ns: string, ke: string)
    requires ValidNamespace(ns)
  {
    ns == "/" || StartsWith(ke, ns[1..] + "/")
  }

  lemma PrefixSplit(s: string, a: string, b: string)
    ensures StartsWith(s, a + b) <==> StartsWith(s, a) && StartsWith(s[|a|..], b)
  {
    if StartsWith(s, a + b) {
      assert s[..|a|] == (a + b)[..|a|] == a;
      assert s[|a|..][..|b|] == s[..|a + b|][|a|..] == (a + b)[|a|..] == b;
    }
    if StartsWith(s, a) && StartsWith(s[|a|..], b) {
      assert s[..|a + b|] == s[..|a|] + s[|a|..][..|b|];
    }
  }

  /** Absolute names survive the way to a key expression and back. */
  lemma NameRoundTrip(ns: string, name: string)
    requires ValidNamespace(ns) && StartsWith(name, "/")
    ensures Under(ns, KeyOf(ns, name)) && NameOf(ns, KeyOf(ns, name)) == name
  {
  }

  /**
   * Key expressions survive the way to a name and back exactly when they lie under the namespace.
   */
  lemma KeyRoundTrip(ns: string, ke: string)
    requires ValidNamespace(ns) && NameOf(ns, ke) != ""
    ensures KeyOf(ns, NameOf(ns, ke)) == ke <==> Under(ns, ke)
    ensures Under(ns, ke) ==> StartsWith(NameOf(ns, ke), "/")
  {
  }

  /** A key outside the namespace is given back a different name. */
  lemma KeyOutsideNamespace()
    ensures NameOf("/bot", "cmd") == "/cmd" && KeyOf("/bot", "/cmd") == "bot/cmd"
    ensures NameOf("/bot", "bottle/x") == "tle/x" && KeyOf("/bot", "tle/x") == "bot/le/x"
  {
    assert "/bot"[1..] == "bot" && "bottle/x"[..3] == "bot" && "bottle/x"[3..] == "tle/x";
    assert "/cmd"[1..] == "cmd" && "tle/x"[1..] == "le/x" && "cmd"[..3][0] != "bot"[0];
  }

  /** Distinct absolute names have distinct key expressions. */
  lemma KeysDistinct(ns: string, a: string, b: string)
    requires ValidNamespace(ns) && StartsWith(a, "/") && StartsWith(b, "/") && KeyOf(ns, a) == KeyOf(ns, b)
    ensures a == b
  {
    NameRoundTrip(ns, a);
    NameRoundTrip(ns, b);
  }

  predicate NoColon(s: string) {
    ':' !in s
  }

  /** A colon-free head is determined by the string it starts. */
  lemma {:induction false} HeadUnique(a: string, b: string, x: string, y: string)
    requires NoColon(a) && NoColon(b) && a + ":" + x == b + ":" + y
    ensures a == b && x == y
  {
    var s, t := a + ":" + x, b + ":" + y;
    assert s[|a|] == ':' && t[|b|] == ':';
    if |a| == |b| {
      assert a == s[..|a|] == t[..|b|] == b;
      assert x == s[|a| + 1..] == t[|b| + 1..] == y;
    }
  }

  /** The prefix of a bridge picks out exactly the entries of that bridge. */
  lemma PrefixOfBridge(zid: string, other: string, rest: string)
    requires NoColon(zid) && NoColon(other)
    ensures StartsWith(other + ":" + rest, zid + ":") <==> zid == other
  {
    var s := other + ":" + rest;
    if StartsWith(s, zid + ":") {
      assert s == zid + ":" + s[|zid| + 1..];
      HeadUnique(other, zid, rest, s[|zid| + 1..]);
    }
    if zid == other {
      assert s[..|zid| + 1] == zid + ":";
    }
  }
}
