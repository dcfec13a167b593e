/**
 * Topics and services that are parts of actions: how their endpoints are told apart from plain ones, and
 * which routes leave their announcement to an action route. The two do not quite agree.
 */
module ActionNames {
  import opened Wrappers
  import opened Text
  import opened NodeInfo

  const MESSAGE_PARTS := ["_action/feedback", "_action/status"]
  const SERVICE_PARTS := ["_action/send_goal", "_action/cancel_goal", "_action/get_result"]

  /** `is_message_for_action`: routes of such topics are not announced. */
  predicate IsMessageForAction(name: string) {
    exists part | part in MESSAGE_PARTS :: EndsWith(name, part)
  }

  /** `is_service_for_action`: nor are routes of such services. */
  predicate IsServiceForAction(name: string) {
    exists part | part in SERVICE_PARTS :: EndsWith(name, part)
  }

  /** The name is that of a part of some action: the part follows a '/'. */
  predicate PartOfAction(name: string, parts: seq<string>) {
    exists part | part in parts :: EndsWith(name, "/" + part)
  }

  lemma SuffixExtends(s: string, suffix: string, more: string)
    ensures EndsWith(s + more, suffix + more) <==> EndsWith(s, suffix)
  {
    if |suffix| <= |s| {
      var n := |s| - |suffix|;
      assert (s + more)[n..] == s[n..] + more;
      if s[n..] + more == suffix + more {
        assert (s[n..] + more)[..|suffix|] == s[n..] && (suffix + more)[..|suffix|] == suffix;
      }
    }
  }

  lemma MatchesNone(name: string, patterns: seq<Pattern>)
    ensures MatchPattern(name, patterns).None? <==> forall p | p in patterns :: !EndsWith(name, p.suffix)
  {
  }

  lemma PatternRoles(prefix: string)
    ensures forall p | p in Patterns(prefix) :: p.role !in {Endpoint, Request, Reply}
  {
  }

  lemma TopicPatterns(name: string)
    ensures MatchPattern(name, Patterns("rt/")).None? <==> !PartOfAction(name, MESSAGE_PARTS)
  {
    hide EndsWith;
    var patterns := Patterns("rt/");
    MatchesNone(name, patterns);
    assert patterns[0].suffix == "/" + MESSAGE_PARTS[1] && patterns[1].suffix == "/" + MESSAGE_PARTS[0];
    assert patterns[0] in patterns && patterns[1] in patterns;
    assert MESSAGE_PARTS[0] in MESSAGE_PARTS && MESSAGE_PARTS[1] in MESSAGE_PARTS;
  }

  lemma SendGoalSuffixes()
    ensures "/" + "_action/send_goal" + "Request" == "/_action/send_goalRequest"
    ensures "/" + "_action/send_goal" + "Reply" == "/_action/send_goalReply"
  {
  }

  lemma CancelGoalSuffixes()
    ensures "/" + "_action/cancel_goal" + "Request" == "/_action/cancel_goalRequest"
    ensures "/" + "_action/cancel_goal" + "Reply" == "/_action/cancel_goalReply"
  {
  }

  lemma GetResultSuffixes()
    ensures "/" + "_action/get_result" + "Request" == "/_action/get_resultRequest"
    ensures "/" + "_action/get_result" + "Reply" == "/_action/get_resultReply"
  {
  }

  /** The patterns of requests and of replies are the services of an action, in the same order. */
  lemma PartPatterns(role: Role)
    requires role == Request || role == Reply
    ensures var patterns := Patterns(TopicPrefix(role) + "/");
            |patterns| == 3 && forall i | 0 <= i < 3 :: patterns[i].suffix == "/" + SERVICE_PARTS[i] + Suffix(role)
  {
    assert TopicPrefix(Request) + "/" == "rq/" && TopicPrefix(Reply) + "/" == "rr/";
    SendGoalSuffixes();
    CancelGoalSuffixes();
    GetResultSuffixes();
  }

  lemma ServicePatterns(name: string, role: Role)
    requires role == Request || role == Reply
    ensures MatchPattern(name + Suffix(role), Patterns(TopicPrefix(role) + "/")).None?
       <==> !PartOfAction(name, SERVICE_PARTS)
  {
    hide EndsWith, Patterns, TopicPrefix, Suffix;
    var patterns := Patterns(TopicPrefix(role) + "/");
    MatchesNone(name + Suffix(role), patterns);
    PartPatterns(role);
    forall i | 0 <= i < 3
      ensures SERVICE_PARTS[i] in SERVICE_PARTS && patterns[i] in patterns
      ensures EndsWith(name + Suffix(role), patterns[i].suffix) <==> EndsWith(name, "/" + SERVICE_PARTS[i])
    {
      SuffixExtends(name, "/" + SERVICE_PARTS[i], Suffix(role));
    }
  }

  lemma UnmatchedTopic(e: Entity)
    requires |e.topic| >= 3 && e.topic[..3] == "rt/" && MatchPattern(e.topic[2..], Patterns("rt/")).None?
    ensures Classify(e).Some? && Classify(e).value.key == Key(TopicKind(e.end.side), e.topic[2..])
    ensures Classify(e).value.role == Endpoint
  {
    hide Patterns, MatchPattern, MessageType;
  }

  lemma UnmatchedService(e: Entity, name: string, role: Role)
    requires (role == Request || role == Reply) && |e.topic| >= 3 && e.topic[..3] == TopicPrefix(role) + "/"
    requires e.topic[2..] == name + Suffix(role) && MatchPattern(e.topic[2..], Patterns(e.topic[..3])).None?
    ensures Classify(e).Some? && Classify(e).value.key == Key(ServiceKind(e.end.side, role), name)
    ensures Classify(e).value.role == role
  {
    hide Patterns, MatchPattern, ServiceType;
    StripConcat(name, Suffix(role));
    assert TopicPrefix(Request) + "/" == "rq/" && TopicPrefix(Reply) + "/" == "rr/";
  }

  /** The topic of a publisher or subscriber is dispatched to it exactly if no part of an action has its name. */
  lemma ClassifyPlainTopic(name: string, e: Entity)
    requires ValidRosName(name) && e.topic == DdsTopic(name, Endpoint)
    ensures Classify(e).Some?
    ensures (Classify(e).value.key == Key(TopicKind(e.end.side), name) && Classify(e).value.role == Endpoint)
       <==> !PartOfAction(name, MESSAGE_PARTS)
  {
    assert |e.topic| >= 3 && e.topic[2..] == name && e.topic[..3] == "rt/";
    hide Classify, Patterns, MatchPattern, PartOfAction;
    TopicPatterns(name);
    PatternRoles("rt/");
    MatchedSuffix(name, Patterns("rt/"));
    if MatchPattern(name, Patterns("rt/")).Some? {
      ClassifyMatched(e, MatchPattern(name, Patterns("rt/")).value);
    } else {
      UnmatchedTopic(e);
    }
  }

  /** The topics of a service are dispatched to it, in their role, under the same condition. */
  lemma ClassifyPlainService(name: string, role: Role, e: Entity)
    requires ValidRosName(name) && (role == Request || role == Reply) && e.topic == DdsTopic(name, role)
    ensures Classify(e).Some?
    ensures (Classify(e).value.key == Key(ServiceKind(e.end.side, role), name) && Classify(e).value.role == role)
       <==> !PartOfAction(name, SERVICE_PARTS)
  {
    hide Classify, Patterns, MatchPattern, PartOfAction, Suffix;
    var prefix, full := TopicPrefix(role) + "/", name + Suffix(role);
    assert |e.topic| >= 3 && e.topic[2..] == full && e.topic[..3] == prefix;
    ServicePatterns(name, role);
    PatternRoles(prefix);
    MatchedSuffix(full, Patterns(prefix));
    if MatchPattern(full, Patterns(prefix)).Some? {
      ClassifyMatched(e, MatchPattern(full, Patterns(prefix)).value);
    } else {
      UnmatchedService(e, name, role);
    }
  }

  /** The name ends in a part's name that does not follow a '/'. */
  predicate LooksLikePart(name: string, parts: seq<string>) {
    exists part | part in parts :: EndsWith(name, part) && |name| > |part| && name[|name| - |part| - 1] != '/'
  }

  lemma EndsAfterSlash(name: string, part: string)
    ensures EndsWith(name, "/" + part) <==>
            EndsWith(name, part) && |name| > |part| && name[|name| - |part| - 1] == '/'
  {
  }

  /** No name ends in two of the parts. */
  lemma OnePart(name: string, p: string, q: string)
    requires (p in MESSAGE_PARTS && q in MESSAGE_PARTS) || (p in SERVICE_PARTS && q in SERVICE_PARTS)
    requires EndsWith(name, p) && EndsWith(name, q)
    ensures p == q
  {
    if p in MESSAGE_PARTS {
      assert name[|name| - 1] == p[|p| - 1] == q[|q| - 1];
    } else {
      assert name[|name| - 1] == p[|p| - 1] == q[|q| - 1];
      assert name[|name| - 6] == p[|p| - 6] == q[|q| - 6];
    }
  }

  lemma NeverAnnounced(name: string, parts: seq<string>)
    requires ValidRosName(name) && (parts == MESSAGE_PARTS || parts == SERVICE_PARTS)
    ensures !PartOfAction(name, parts) && (exists part | part in parts :: EndsWith(name, part))
       <==> LooksLikePart(name, parts)
  {
    hide EndsWith;
    forall part | part in parts && EndsWith(name, part)
      ensures |name| > |part| && (EndsWith(name, "/" + part) <==> name[|name| - |part| - 1] == '/')
      ensures forall q | q in parts && EndsWith(name, q) :: q == part
      ensures forall q | q in parts && EndsWith(name, "/" + q) :: EndsWith(name, q)
    {
      LongerThan(name, part);
      EndsAfterSlash(name, part);
      forall q | q in parts && EndsWith(name, q) ensures q == part {
        OnePart(name, part, q);
      }
      forall q | q in parts && EndsWith(name, "/" + q) ensures EndsWith(name, q) {
        EndsAfterSlash(name, q);
      }
    }
  }

  lemma LongerThan(name: string, part: string)
    requires ValidRosName(name) && EndsWith(name, part) && StartsWith(part, "_")
    ensures |name| > |part|
  {
  }

  /**
   * A plain topic whose route is never announced: exactly if its name only looks like that of a part of
   * an action.
   */
  lemma NeverAnnouncedTopic(name: string)
    requires ValidRosName(name)
    ensures !PartOfAction(name, MESSAGE_PARTS) && IsMessageForAction(name) <==> LooksLikePart(name, MESSAGE_PARTS)
  {
    hide PartOfAction, EndsWith, LooksLikePart, MESSAGE_PARTS;
    NeverAnnounced(name, MESSAGE_PARTS);
  }

  /** And a plain service. */
  lemma NeverAnnouncedService(name: string)
    requires ValidRosName(name)
    ensures !PartOfAction(name, SERVICE_PARTS) && IsServiceForAction(name) <==> LooksLikePart(name, SERVICE_PARTS)
  {
    hide PartOfAction, EndsWith, LooksLikePart, SERVICE_PARTS;
    NeverAnnounced(name, SERVICE_PARTS);
  }

  /** Every name with a part's name joined on is one, such as "/arm" with "_action/status". */
  lemma JoinedPart(stem: string, part: string, parts: seq<string>)
    requires ValidRosName(stem) && stem[|stem| - 1] != '/' && part in parts
    ensures LooksLikePart(stem + part, parts)
  {
  }
}
