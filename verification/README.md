# zenoh-plugin-ros2dds in Dafny

A model of the bridge between ROS 2 systems over DDS and zenoh, with proofs of what it is meant to keep. The bridge
holds three views in step: the DDS endpoints of its own domain, the ROS nodes that declare them, and the routes
announced by other bridges.

`dafny verify dfyconfig.toml` verifies everything. There is one module per file.

## What is modelled

**Discovery.** `NodeInfo` is one ROS node: how an endpoint's DDS topic is dispatched to an interface and a role, how
the interfaces are assembled from their endpoints and taken apart again, and what is announced on the way. `Discovery`
is the state machine around it: participants, endpoints, nodes, the admin space, parked endpoints, the synthetic
orphan node of each participant. `Op` is one thing that happens (a DDS event, a `ros_discovery_info` message, a
resolution, a sweep), `Step` what it does, `Run` a whole run. A loop over a hash map visits its entries in an
arbitrary order, so `Op` also records the orders met and `Legal` says which are possible; every theorem is about all
of them. `DiscoveredEntities` is the object with its fields changed in place, each method proved to be a `Step`; its
loops pick the next entry arbitrarily. The theorems are in `DiscoveryEvents` (events tell all), `DiscoveryRefs` (no
reference dangles, departed participants stay away), `DiscoveryTransfer` (ownership moves without a gap),
`DiscoveryGrace` (orphan claims) and `DiscoveryConfluence` (order does not matter). `ActionNames` tells which topics and
services are parts of actions.

**Routes and retries.** `Names` maps ROS names to key expressions and back. `Routes` says what each event does to the
route maps and the admin space, and keeps beside it `Needs`, a ledger of who needs what that knows nothing of routes;
the first is proved to follow the second. `Retry` is the main loop with its two retry queues and the prunes waiting
for their tick; `RetryRuns` proves what holds over its runs. `LocalRoutes` joins discovery and route manager.
`RoutesMgr` and `EventLoop` are the objects. Whether a DDS or zenoh call succeeds is an arbitrary `Outcome`.

**QoS.** `Qos` derives the QoS of one Reader or Writer that stands in for many, and the QoS announced for them.
`QosMatching` has the request/offer rules of sections 2.2.3.4 to 2.2.3.18 of OMG DDS 1.4. `QosOrder` is about the
order of publishers and about history depths end to end. `RouteSubscriber` adapts DDS Writers to the announcements
that come and go, `RoutePublisher` its DDS Readers, zenoh publisher and announcements to the local Writers.
`Liveliness` (with `Decimal` for its numbers) is the codec of the liveliness tokens. `AcrossBridges` follows durability
and depth from the Writers of one bridge through a token to the Writers of another.

**Data paths.** `FwdQueue` is the bounded evicting queue between DDS listeners and the zenoh publisher, once as an
object used by one thread and once as a state machine of any number of threads interleaving the single channel and
counter operations. `RequestHeader` follows the bytes of a service request and reply across two bridges,
`ServiceServer` matches replies to queries. `Dds` keeps account of DDS entities and advertised GIDs; `RouteEntities`
(service routes), `RouteSubscriber` and `RoutePublisher` create and delete them; `Bridge` has routes of all kinds over
one participant. `ActionRoutes` are the five sub-routes of an action.

`Wrappers`, `Text`, `Iteration` and `Sorting` are small helpers.

Some claims one might expect are false of the code. Each is given with its exact condition and, where the condition
does not show one by itself, an input:

- a key survives the way to a name and back: `Names.KeyRoundTrip`, input in `Names.KeyOutsideNamespace`;
- retiring a route leaves the admin space as it was: `Routes.RetireCleans`, input in `Routes.RetireLeaves`;
- no unused route stays in the map: `Routes.MatchedLeavesUnused`, input in `Routes.MatchedLeftover`;
- routes follow what nodes hold: `LocalRoutes.OneEvent`, input in `LocalRoutes.SharedNameLosesRoute`;
- nothing of a departed participant remains: `DiscoveryRefs.FirstSeenPurged`, input in
  `DiscoveryRefs.FirstSeenLeftBehind`;
- a Writer nobody declares is claimed once its grace period is over: `DiscoveryGrace.ClaimedIff` and
  `DiscoveryGrace.LeftUnclaimed`, input in `DiscoveryGrace.LeftByFirstType`;
- every topic and service is announced by its own route or as part of an action: `ActionNames.NeverAnnouncedTopic` and
  `ActionNames.NeverAnnouncedService`, inputs in `ActionNames.JoinedPart`;
- the order of publishers does not matter: `QosOrder.HistoryOrderFree` and `QosOrder.ReadersKeptIff`, input in
  `QosOrder.FirstDepthWins`, and `QosOrder.AnnouncedKeptIff`, input in `QosOrder.FirstServiceWins`;
- a successful update makes up for earlier failures: for the listener of a publisher route
  `RoutePublisher.DeafUntilRebuilt`, input in `RoutePublisher.RebuildForgotten`; for its announcement
  `RoutePublisher.SilentUntilEmptied`, input in `RoutePublisher.AnnouncementForgotten`; for the announcement of a
  subscriber route `RouteSubscriber.SilentUntilAlone`, input in `RouteSubscriber.AnnouncementForgotten`;
- re-announcing never takes a route away: `RoutePublisher.ReannouncementKept`, input in
  `RoutePublisher.ReannouncementLost`;
- QoS and tokens survive encoding: `Liveliness.QosRoundTrip`, `Liveliness.TokenRoundTrip`;
- requests and replies arrive unchanged: `RequestHeader.RequestArrives`, `RequestHeader.ReplyArrives`;
- a failed write gives up no other query: `ServiceServer.FailedWriteOwn`, input in
  `ServiceServer.SameInstantGivesUpNewer`.

A comment in `RoutePublisher::rebuild` (`zenoh-plugin-ros2dds/src/route_publisher.rs:720-725`) says that the old QoS is
kept after a failure so that the next update tries again. It does not if the Writers are by then as they were before:
the update succeeds and the route stays without matching listener.

The documentation of `check_ros_name` (`zenoh-plugin-ros2dds/src/ros2_utils.rs:413-423`) promises a check that the
rest of the name is a key expression. The code checks a string constant instead, so in effect only the leading `/`
counts; the model does the same.

## Assumptions

- Endpoint gids are not zero, which stands for "not discovered"; no real node has a name with the orphan prefix.
- References, ownership transfer and confluence (`Admissible`): an endpoint identifier always stands for the same
  endpoint, and is declared only by one fixed node of its own participant. Confluence (`Fitting`) also asks that the
  endpoints agree on types and roles, that the declared nodes can be created, and that the orphan node does not hold
  one of the Writers already.
- ROS names are absolute and announced keys lie under the configured namespace where a theorem says `Proper`. A key
  equal to the namespace has an empty name, which stops the program; such announcements are left out (`ValidRemote`).
- Zenoh ids contain no `:`, and neither do ROS names where retries are concerned.
- DDS durations are at most infinite.
- Reading the GUID of an entity that is kept, and deleting it, succeed.

## Model

| member | source | states |
|---|---|---|
| NodeInfo.ClassifiedRole | zenoh-plugin-ros2dds/src/node_info.rs:460-606 | every dispatched endpoint plays a role of its interface kind, on the side (Reader or Writer) that role has, and brings a type unless its role is a generic one |
| NodeInfo.ClassifyActionTopic | zenoh-plugin-ros2dds/src/route_action_srv.rs:80-127 | the DDS topics of the sub-routes of an action are dispatched back to that action and role, for every name and all eight roles |
| ActionNames.ClassifyPlainTopic | zenoh-plugin-ros2dds/src/node_info.rs:460-606 | the topic of a publisher or subscriber is dispatched to it iff its name does not end in "/" and a message of an action |
| ActionNames.ClassifyPlainService | zenoh-plugin-ros2dds/src/node_info.rs:460-606 | request and reply topics of a service are dispatched to it and their role iff its name does not end in "/" and a service of an action |
| ActionNames.NeverAnnouncedTopic | zenoh-plugin-ros2dds/src/ros2_utils.rs:407-411 | a topic is taken for a plain one and yet its route is left to an action for announcement iff its name ends in a message of an action not preceded by "/" |
| ActionNames.NeverAnnouncedService | zenoh-plugin-ros2dds/src/ros2_utils.rs:401-406 | the same for services |
| ActionNames.JoinedPart | zenoh-plugin-ros2dds/src/ros2_utils.rs:401-411 | every name with such an ending joined on is one |
| NodeInfo.UpdateAnnounced | zenoh-plugin-ros2dds/src/node_info.rs:609-1676 | over all update functions, the interfaces held complete grow exactly by the one an update announces, and never shrink |
| NodeInfo.FeedFold | zenoh-plugin-ros2dds/src/node_info.rs:460-606 | applying the event of an endpoint update to the complete interfaces before gives those after |
| NodeInfo.RemoveFold | zenoh-plugin-ros2dds/src/node_info.rs:1710-1840 | the same for removing an endpoint, whatever order the maps are searched in and though a never complete interface is undiscovered too |
| NodeInfo.AnnouncedOnceComplete | zenoh-plugin-ros2dds/src/node_info.rs:687-1676 | for every arrival sequence, with repeats, of the endpoints of a service or action: nothing is announced until all roles were seen, then exactly one event with all gids and the type |
| NodeInfo.CanonAll | zenoh-plugin-ros2dds/src/node_info.rs:609-1676 | a node is a function of the set of endpoints fed to it: any two orders give the same node, if types and roles agree |
| NodeInfo.NodeInfo.UpdateWith | zenoh-plugin-ros2dds/src/node_info.rs:460-606 | the object's in-place update and its event are those of the specification |
| NodeInfo.NodeInfo.RemoveEnd | zenoh-plugin-ros2dds/src/node_info.rs:1710-1840 | the same for the removal, for some order of each map searched |
| NodeInfo.NodeInfo.RemoveAll | zenoh-plugin-ros2dds/src/node_info.rs:1679-1707 | nothing is left, and each interface held is undiscovered once |
| DiscoveryEvents.StepHeard | zenoh-plugin-ros2dds/src/discovered_entities.rs:128-686 | a listener that folds the events of any one step goes from the complete interfaces before to those after |
| DiscoveryEvents.EventsTellAll | zenoh-plugin-ros2dds/src/discovered_entities.rs:128-686 | over every run, folding all events gives exactly the interfaces held complete, by participant, node, kind and name: none is lost, none invented |
| DiscoveryRefs.StepCoherent | zenoh-plugin-ros2dds/src/discovered_entities.rs:119-686 | every step keeps: gids held are known endpoints in their right role, each held by one node; admin keys and entities correspond |
| DiscoveryRefs.NothingDangles | zenoh-plugin-ros2dds/src/discovered_entities.rs:119-686 | in every reachable state each gid used is a known endpoint, an admin key exists iff what it names exists, and no endpoint is held twice |
| DiscoveryRefs.DepartCoherent | zenoh-plugin-ros2dds/src/discovered_entities.rs:128-188 | after a participant left, none of its endpoints, nodes or their admin keys remains, nor a first-seen time of an endpoint it had |
| DiscoveryRefs.FirstSeenPurged | zenoh-plugin-ros2dds/src/discovered_entities.rs:128-188 | no first-seen time at all remains of it iff every Writer of it with such a time was still known |
| DiscoveryRefs.FirstSeenLeftBehind | zenoh-plugin-ros2dds/src/discovered_entities.rs:249-273 | a run in which one remains: removing a Writer does not forget its first sighting |
| DiscoveryRefs.NeverRevived | zenoh-plugin-ros2dds/src/discovered_entities.rs:600-686 | after the departure no sweep, resolution or foreign event brings anything of it back or announces anything of it |
| DiscoveryRefs.ResolveFindsNothing | zenoh-plugin-ros2dds/src/discovered_entities.rs:536-587 | when each endpoint is declared by its own participant's node, resolving pending endpoints never has work left |
| DiscoveryTransfer.TransferOrKeep | zenoh-plugin-ros2dds/src/discovered_entities.rs:381-460 | a declared node publishes on the topic before the orphan node gives anything of it up, or nothing is given up |
| DiscoveryTransfer.NeverUnserved | zenoh-plugin-ros2dds/src/discovered_entities.rs:344-465 | after every prefix of the events of a declaration, each topic the orphan node published on still has a publishing node |
| DiscoveryGrace.ClaimedAfterGrace | zenoh-plugin-ros2dds/src/discovered_entities.rs:600-686 | a Writer is claimed only if it has waited since a sweep at least the grace period ago: every sweep since met it undeclared and in its grace period, and its participant did not depart |
| DiscoveryGrace.SecondSweepSilent | zenoh-plugin-ros2dds/src/discovered_entities.rs:600-686 | after a sweep without grace period a second one announces and changes nothing, even if types differ |
| DiscoveryGrace.LeftUnclaimed | zenoh-plugin-ros2dds/src/discovered_entities.rs:600-686 | a sweep leaves a candidate unclaimed iff its grace period is not over, or the type the topic has at its participant's orphan node, or else that of the first Writer of the topic the sweep deals with, is another one |
| DiscoveryGrace.DueIffWaited | zenoh-plugin-ros2dds/src/discovered_entities.rs:600-686 | over every run whose clock does not go back, the grace period of a candidate is over iff it has waited that long |
| DiscoveryGrace.ClaimedIff | zenoh-plugin-ros2dds/src/discovered_entities.rs:600-686 | over such runs a sweep claims a candidate iff it has waited for the grace period and its type is the one the topic has or gets |
| DiscoveryGrace.LeftByFirstType | zenoh-plugin-ros2dds/src/discovered_entities.rs:600-686 | a run from the start that leaves one: two Writers of one participant on one topic with different types |
| DiscoveryConfluence.DeclareEndsCanon | zenoh-plugin-ros2dds/src/discovered_entities.rs:467-530 | declaring endpoints in any order gives the node of the known ones and parks the others |
| DiscoveryConfluence.Confluent | zenoh-plugin-ros2dds/src/discovered_entities.rs:193-530 | any two runs that learn the same endpoints and the same declaration, in any order and with repeats, end with the same nodes and announced interfaces |
| DiscoveredEntities.DiscoveredEntities.AddParticipant | zenoh-plugin-ros2dds/src/discovered_entities.rs:119-126 | the object's new state is that of the step |
| DiscoveredEntities.DiscoveredEntities.RemoveParticipant | zenoh-plugin-ros2dds/src/discovered_entities.rs:128-188 | new state and events are those of a possible departure step |
| DiscoveredEntities.DiscoveredEntities.AddEndpoint | zenoh-plugin-ros2dds/src/discovered_entities.rs:193-311 | new state and event are those of a possible step, the search over participants and nodes stopping where the source stops |
| DiscoveredEntities.DiscoveredEntities.RemoveEndpoint | zenoh-plugin-ros2dds/src/discovered_entities.rs:249-342 | new state and event are those of a possible step |
| DiscoveredEntities.DiscoveredEntities.UpdateParticipantInfo | zenoh-plugin-ros2dds/src/discovered_entities.rs:344-465 | closing absent nodes, declaring the others and releasing transferred Writers, in this order, is one possible step |
| DiscoveredEntities.DiscoveredEntities.ResolvePendingEndpoints | zenoh-plugin-ros2dds/src/discovered_entities.rs:536-587 | new state and events are those of a possible resolution |
| DiscoveredEntities.DiscoveredEntities.ForwardOrphanWriters | zenoh-plugin-ros2dds/src/discovered_entities.rs:600-686 | new state, first-seen times and events are those of a possible sweep |
| DiscoveredEntities.UpdateNodeInfo | zenoh-plugin-ros2dds/src/discovered_entities.rs:467-530 | the two loops give the node, its events and the Writers to transfer |
| Names.NameRoundTrip | zenoh-plugin-ros2dds/src/ros2_utils.rs:100-127 | every absolute name survives the way to a key and back, and its key lies under the namespace |
| Names.KeyRoundTrip | zenoh-plugin-ros2dds/src/ros2_utils.rs:100-127 | a key survives the way to a name and back iff it lies under the namespace |
| Names.KeyOutsideNamespace | zenoh-plugin-ros2dds/src/ros2_utils.rs:116-127 | two keys that do not |
| Names.KeysDistinct | zenoh-plugin-ros2dds/src/ros2_utils.rs:100-113 | distinct absolute names have distinct keys |
| Routes.DiscoveryExact | zenoh-plugin-ros2dds/src/routes_mgr.rs:139-361 | a local event, whatever fails, keeps routes, users and admin keys exactly those the ledger of needs calls for |
| Routes.AnnouncementExact | zenoh-plugin-ros2dds/src/routes_mgr.rs:365-616 | the same for an announcement or retirement by a remote bridge |
| Routes.MatchedExact | zenoh-plugin-ros2dds/src/routes_mgr.rs:622-627 | the same for matched Readers, with the routes left without users recorded as lingering |
| Routes.BridgeLeftExact | zenoh-plugin-ros2dds/src/routes_mgr.rs:647-674 | the same when a bridge is lost |
| Routes.RoutedIffNeeded | zenoh-plugin-ros2dds/src/routes_mgr.rs:139-674 | over every run a (kind, name) has a route iff a local node or remote bridge needs it, with exactly those users; for subscriber routes on runs without matched-reader events |
| Routes.OneAdminKeyEach | zenoh-plugin-ros2dds/src/routes_mgr.rs:676-886 | over every run the admin space holds exactly one key per route, distinct for distinct routes |
| Routes.RetireCleans | zenoh-plugin-ros2dds/src/routes_mgr.rs:365-616 | with any other routes there, announcing a new route and retiring it leaves the admin space as it was iff the key lies under the namespace; the routes are as before in any case |
| Routes.RetireLeaves | zenoh-plugin-ros2dds/src/ros2_utils.rs:116-127 | a key that leaves an admin key behind: it starts with the namespace but not with the namespace and a slash |
| Routes.MatchedLeavesUnused | zenoh-plugin-ros2dds/src/routes_mgr.rs:622-627 | the event leaves an unused route in the map iff its only users were the matched Readers now gone |
| Routes.MatchedLeftover | zenoh-plugin-ros2dds/src/routes_mgr.rs:622-627 | a run from the start that does: a remote publisher comes, local Readers match, the publisher goes, the Readers go |
| LocalRoutes.RunAbsolute | zenoh-plugin-ros2dds/src/node_info.rs:39-48 | over every run discovery announces only interfaces with absolute names, and only of orphan nodes and nodes declared in the run |
| LocalRoutes.OneEvent | zenoh-plugin-ros2dds/src/routes_mgr.rs:139-361 | after an event the local users of routes are the full names of the nodes holding interfaces, iff no other node of the same full name holds an interface just given up |
| LocalRoutes.RoutedIffHeld | zenoh-plugin-ros2dds/src/discovery_mgr.rs:85-175 | over every run of discovery passed on to the route manager, under that condition: an interface is routed iff some node holds it complete, and the route serves exactly those nodes |
| LocalRoutes.RoutedIfDistinct | zenoh-plugin-ros2dds/src/discovery_mgr.rs:85-175 | the condition is met if the full names of the nodes declared in the run, and of orphan nodes, are distinct, so that then interfaces are routed iff held |
| LocalRoutes.TransferKeepsRoute | zenoh-plugin-ros2dds/src/discovered_entities.rs:381-460 | the route of a topic the orphan node published on is there at every point of a declaration's events |
| LocalRoutes.SharedNameLosesRoute | zenoh-plugin-ros2dds/src/routes_mgr.rs:139-361 | a run of discovery from the start: two participants each declare a node of one full name that publishes a topic, the first departs, and the topic has no route though the other node still holds it |
| RoutesMgr.RoutesMgr.GetOrCreate | zenoh-plugin-ros2dds/src/routes_mgr.rs:676-886 | the route is there, with its admin key if new, unless creating it failed, which changes nothing |
| RoutesMgr.RoutesMgr.OnRosDiscoveryEvent | zenoh-plugin-ros2dds/src/routes_mgr.rs:139-361 | the object's new maps and result are those of the specification |
| RoutesMgr.RoutesMgr.OnRosAnnouncementEvent | zenoh-plugin-ros2dds/src/routes_mgr.rs:365-616 | the same |
| RoutesMgr.RoutesMgr.OnMatchedReaderEvent | zenoh-plugin-ros2dds/src/routes_mgr.rs:622-627 | the same |
| RoutesMgr.RoutesMgr.OnRemoteBridgeLeft | zenoh-plugin-ros2dds/src/routes_mgr.rs:647-674 | the loop over all routes, in any order, prunes each and drops those that lost their last user |
| RetryRuns.SameId | zenoh-plugin-ros2dds/src/lib.rs:999-1029 | two topic announcements have the same id iff they are about the same remote route, QoS included |
| RetryRuns.Superseded | zenoh-plugin-ros2dds/src/lib.rs:645-664 | once a newer announcement took its place, nothing about the same remote route waits any more |
| RetryRuns.StepInv | zenoh-plugin-ros2dds/src/lib.rs:534-664 | every turn of the main loop keeps the invariant behind `NoGhosts` |
| RetryRuns.NoGhosts | zenoh-plugin-ros2dds/src/lib.rs:534-664 | at any time: queued events are the latest about their interface, one each, tried at most 10 times; a node is served only if its latest event is a discovery, and if it is, it is served, waiting or given up; a remote route is served only if its latest notice announces it |
| RetryRuns.UnrelatedRetained | zenoh-plugin-ros2dds/src/lib.rs:585-588 | a prune takes from the queue exactly the announcements of that bridge |
| RetryRuns.PrunedForGood | zenoh-plugin-ros2dds/src/lib.rs:572-593 | the tick after a loss, unless the bridge came back, leaves nothing of it in any route or queue |
| RetryRuns.StaysGone | zenoh-plugin-ros2dds/src/lib.rs:534-664 | no turn but an announcement of that bridge brings anything of it back, retries included |
| RetryRuns.NeverResurrected | zenoh-plugin-ros2dds/src/lib.rs:534-664 | so over every run |
| EventLoop.EventLoop.OnDiscoveryEvent | zenoh-plugin-ros2dds/src/lib.rs:534-564 | what is allowed supersedes its queued predecessor, and waits in turn if it fails |
| EventLoop.EventLoop.OnAnnouncementEvent | zenoh-plugin-ros2dds/src/lib.rs:645-664 | the same for announcements, by their id |
| EventLoop.EventLoop.OnMatchedReaderEvent | zenoh-plugin-ros2dds/src/lib.rs:566-570 | matched Readers reach the route manager, queues untouched |
| EventLoop.EventLoop.OnTransportLost | zenoh-plugin-ros2dds/src/lib.rs:680-698 | the prune waits for the next tick, once |
| EventLoop.EventLoop.PruneLost | zenoh-plugin-ros2dds/src/lib.rs:572-593 | prunes waiting are all done, reconnected bridges spared |
| EventLoop.EventLoop.RetryAnnouncements | zenoh-plugin-ros2dds/src/lib.rs:594-606 | one round over the queue, failures keeping their order with a count one higher, up to the limit |
| EventLoop.EventLoop.RetryDiscoveries | zenoh-plugin-ros2dds/src/lib.rs:607-619 | the same for discovery events |
| EventLoop.EventLoop.OnTick | zenoh-plugin-ros2dds/src/lib.rs:572-620 | prunes, then announcements, then discovery events |
| Qos.MaxHistoryIs | zenoh-plugin-ros2dds/src/qos_helpers.rs:139-149 | the history is one of those given; a KEEP_LAST one is the deepest and means there was no KEEP_ALL; a leading KEEP_ALL wins |
| Qos.MarksLoop | zenoh-plugin-ros2dds/src/qos_helpers.rs:262-282 | the loop tells whether a bridge announces both durabilities |
| QosMatching.ReaderMatchesAll | zenoh-plugin-ros2dds/src/qos_helpers.rs:195-223 | the Reader derived from any Writers is compatible with each of them in all seven policies |
| QosMatching.PlaceholderMatchesAny | zenoh-plugin-ros2dds/src/qos_helpers.rs:195-223 | without Writers, it is compatible with any Writer to come |
| QosMatching.ServedExactlyOnce | zenoh-plugin-ros2dds/src/qos_helpers.rs:228-246 | of the one or two Readers of a route exactly one forwards what a local Writer writes, mixed durabilities included |
| QosMatching.Rejected | zenoh-plugin-ros2dds/src/dds_utils.rs:330-377 | the Reader of TRANSIENT_LOCAL Writers does not match a VOLATILE one, which is why the second may skip the others |
| QosMatching.RemoteOfferKept | zenoh-plugin-ros2dds/src/qos_helpers.rs:299-324 | the DDS Writer standing in for remote ones is reliable enough for any Reader, and durable enough for one asking for at most TRANSIENT_LOCAL iff some remote Writer is |
| QosOrder.HistoryOrderFree | zenoh-plugin-ros2dds/src/qos_helpers.rs:139-173 | the route history is the same for all orders of the publishers iff all KEEP_ALL ones have the same depth |
| QosOrder.FirstDepthWins | zenoh-plugin-ros2dds/src/qos_helpers.rs:139-149 | two KEEP_ALL publishers with different depths: the first one's depth is taken |
| QosOrder.ReadersOrderFree | zenoh-plugin-ros2dds/src/qos_helpers.rs:195-246 | if all KEEP_ALL publishers have the same depth, both Readers are the same for any two orders, as far as a route compares them |
| QosOrder.ReadersKeptIff | zenoh-plugin-ros2dds/src/qos_helpers.rs:228-246 | a route can keep both Readers for all orders iff KEEP_ALL depths agree, among the Writers of each durability if they mix |
| QosOrder.AnnouncedOrderFree | zenoh-plugin-ros2dds/src/qos_helpers.rs:249-297 | under the same condition so are both announced QoS in reliability, durability and history |
| QosOrder.AnnouncedKeptIff | zenoh-plugin-ros2dds/src/route_publisher.rs:618-644 | no announcement has to be made anew, for all orders of the local Writers, iff KEEP_ALL depths and durability services agree, among the Writers of each durability if they mix |
| QosOrder.FirstServiceWins | zenoh-plugin-ros2dds/src/qos_helpers.rs:284-297 | two Writers with different durability services: exchanging them changes what is announced |
| QosOrder.WritersOrderFree | zenoh-plugin-ros2dds/src/qos_helpers.rs:262-346 | both DDS Writers are the same for all orders of the remote announcements |
| QosOrder.WritersDurability | zenoh-plugin-ros2dds/src/qos_helpers.rs:262-282 | the Writer is TRANSIENT_LOCAL iff some announcement is; a second, VOLATILE one exists iff some bridge announces both |
| QosOrder.TransientLocalHistory | zenoh-plugin-ros2dds/src/qos_helpers.rs:153-173 | the depth for TRANSIENT_LOCAL KEEP_LAST Writers is min(10000, m times the sum of max(depth, 1)), at least 1, m being the multiplier with several Writers and 1 with one |
| QosOrder.OneDepth | zenoh-plugin-ros2dds/src/qos_helpers.rs:153-324 | Reader, zenoh cache, announcement, remote Writer, its durability service and the history fetched all have that one depth |
| QosOrder.BridgesAddUp | zenoh-plugin-ros2dds/src/route_subscriber.rs:421-430 | with several bridges the depths add up to the same cap, never multiplied again |
| AcrossBridges.DepthAcross | zenoh-plugin-ros2dds/src/liveliness_mgt.rs:202-271 | the depth a Reader's cache has is the one the other bridge's Writer keeps and fetches, the token in between included |
| AcrossBridges.MixedAcross | zenoh-plugin-ros2dds/src/qos_helpers.rs:249-282 | another bridge hearing both tokens has a TRANSIENT_LOCAL Writer iff some local Writer is, and a second, VOLATILE one iff local durabilities mix |
| AcrossBridges.ArrivedCarried | zenoh-plugin-ros2dds/src/liveliness_mgt.rs:202-271 | a QoS that came as a token says nothing of other policies than reliability, durability, history and user data |
| AcrossBridges.ArrivedOffer | zenoh-plugin-ros2dds/src/qos_helpers.rs:299-324 | in all policies of the match: the Writer made for announcements that came as tokens serves a local Reader asking for at most TRANSIENT_LOCAL iff some announced Writer is durable enough and the Reader asks for no more than any Writer's defaults |
| RouteSubscriber.UpdateSyncs | zenoh-plugin-ros2dds/src/route_subscriber.rs:351-399 | a successful update leaves the Writers as the live announcements ask, whatever failed before |
| RouteSubscriber.UpdateSubscribes | zenoh-plugin-ros2dds/src/route_subscriber.rs:351-399 | after a successful update there is a zenoh subscriber iff there was one before, or the route is announced for local nodes and remote publishers are there: an earlier failure is made up for only then |
| RouteSubscriber.SilentUntilAlone | zenoh-plugin-ros2dds/src/route_subscriber.rs:488-639 | an unannounced route gets announced in a step iff the step brings a local node that is alone on it, or the first matched Readers, and Writer, zenoh subscriber and token can be had |
| RouteSubscriber.AnnouncementForgotten | zenoh-plugin-ros2dds/src/route_subscriber.rs:596-605 | a run that leaves it unannounced with two local nodes though all calls after the first token succeed |
| RouteSubscriber.RunSynced | zenoh-plugin-ros2dds/src/route_subscriber.rs:286-399 | over every run of announcements, retirements, prunes and local changes whose updates succeed, Writers are those recomputed from the live announcements |
| RouteSubscriber.SyncedDurability | zenoh-plugin-ros2dds/src/route_subscriber.rs:286-399 | Writers that are in sync have the durabilities the announcements call for |
| RouteSubscriber.WritersOfLive | zenoh-plugin-ros2dds/src/route_subscriber.rs:286-399 | from a new route on: announcements kept are the live ones, the Writer is TRANSIENT_LOCAL iff one of them is, a VOLATILE Writer exists iff a bridge announces both, and the QoS is the recomputed one |
| RouteSubscriber.BridgeOfKey | zenoh-plugin-ros2dds/src/route_subscriber.rs:653-663 | the part before the first colon of an announcement's key is its bridge |
| RouteSubscriber.RouteSubscriber.SetVolatileWriter | zenoh-plugin-ros2dds/src/route_subscriber.rs:286-303 | replaced only if the QoS differs, kept on failure, no DDS entity leaked |
| RouteSubscriber.RouteSubscriber.InstallWriter | zenoh-plugin-ros2dds/src/route_subscriber.rs:307-347 | replaced or, on failure, kept; no DDS entity leaked, no GID stale |
| RouteSubscriber.RouteSubscriber.UpdateWriter | zenoh-plugin-ros2dds/src/route_subscriber.rs:351-399 | new state and result are those of the specification; entities held stay exactly the live and advertised ones of the route |
| RouteSubscriber.RouteSubscriber.AnnounceRoute | zenoh-plugin-ros2dds/src/route_subscriber.rs:488-519 | the same, stopping at whichever step fails |
| RouteSubscriber.RouteSubscriber.AddRemotePublisher | zenoh-plugin-ros2dds/src/route_subscriber.rs:539-552 | the same |
| RouteSubscriber.RouteSubscriber.RemoveRemotePublisher | zenoh-plugin-ros2dds/src/route_subscriber.rs:563-576 | the same |
| RouteSubscriber.RouteSubscriber.PruneBridge | zenoh-plugin-ros2dds/src/route_subscriber.rs:579-589 | the same |
| RouteSubscriber.RouteSubscriber.AddLocalNode | zenoh-plugin-ros2dds/src/route_subscriber.rs:596-605 | the same: the first node announces the route |
| RouteSubscriber.RouteSubscriber.RemoveLocalNode | zenoh-plugin-ros2dds/src/route_subscriber.rs:608-615 | the last node retires it, the Writer staying |
| RouteSubscriber.RouteSubscriber.UpdateMatchedReaders | zenoh-plugin-ros2dds/src/route_subscriber.rs:621-639 | matched Readers count as one more local node |
| RouteSubscriber.RouteSubscriber.Drop | zenoh-plugin-ros2dds/src/route_subscriber.rs:132-156 | dropping the route deletes and withdraws exactly its own entities |
| RoutePublisher.CreatedSound | zenoh-plugin-ros2dds/src/route_publisher.rs:321-352 | a route that could be created satisfies the invariant of `RunSound` and listens |
| RoutePublisher.StepSound | zenoh-plugin-ros2dds/src/route_publisher.rs:570-906 | every step keeps that invariant, whichever of its calls fails |
| RoutePublisher.RunSound | zenoh-plugin-ros2dds/src/route_publisher.rs:505-906 | over every run, matching callbacks and late activations in between: live Readers were created with the QoS the route has now, cache, queue limit and second publisher are those for it while there is a listener, and without one there is no Reader |
| RoutePublisher.UpdateFollows | zenoh-plugin-ros2dds/src/route_publisher.rs:607-667 | a successful update leaves both Reader QoS as the local Writers call for; the route is announced as they call for iff it was announced before, and listens iff it did before or its Reader QoS changed |
| RoutePublisher.DeafUntilRebuilt | zenoh-plugin-ros2dds/src/route_publisher.rs:671-733 | without a listener, a step brings one back iff it is a successful update to another Reader QoS |
| RoutePublisher.RebuildForgotten | zenoh-plugin-ros2dds/src/route_publisher.rs:671-733 | a run that gets there: a TRANSIENT_LOCAL Writer comes, the rebuild fails at the listener, the Writer goes, the update succeeds |
| RoutePublisher.SilentUntilEmptied | zenoh-plugin-ros2dds/src/route_publisher.rs:875-885 | an unannounced route gets announced in a step iff the step brings the first local node and its token can be declared |
| RoutePublisher.StaysSilent | zenoh-plugin-ros2dds/src/route_publisher.rs:607-644 | so over every run through which it keeps local nodes it stays unannounced |
| RoutePublisher.AnnouncementForgotten | zenoh-plugin-ros2dds/src/route_publisher.rs:875-885 | a run that does: the first token fails, and every call of the update that follows succeeds |
| RoutePublisher.EachWriterOnce | zenoh-plugin-ros2dds/src/route_publisher.rs:607-667 | after a successful update the live Readers, though created for earlier Writers, forward what each local Writer writes exactly once, and the cache is as large as for a Reader created now |
| RoutePublisher.ReannouncementKept | zenoh-plugin-ros2dds/src/route_publisher.rs:789-797 | a bridge that hears the new token and then the retirement of the old one holds the new announcement iff their encodings differ; otherwise only durability services had changed |
| RoutePublisher.ReannouncementLost | zenoh-plugin-ros2dds/src/qos_helpers.rs:284-297 | two announcements for which they do not: the Writer now has a durability service |
| RoutePublisher.RoutePublisher.Create | zenoh-plugin-ros2dds/src/route_publisher.rs:321-352 | the route exists iff every step succeeded, and otherwise nothing is live or advertised |
| RoutePublisher.RoutePublisher.Activate | zenoh-plugin-ros2dds/src/route_publisher.rs:1003-1113 | a Reader that is missing is created if it can be, the other one stays; no entity leaked |
| RoutePublisher.RoutePublisher.Deactivate | zenoh-plugin-ros2dds/src/route_publisher.rs:1115-1132 | exactly the route's Readers are withdrawn and deleted |
| RoutePublisher.RoutePublisher.OnMatchingStatus | zenoh-plugin-ros2dds/src/route_publisher.rs:505-560 | the callback brings or removes the Readers |
| RoutePublisher.RoutePublisher.Reannounce | zenoh-plugin-ros2dds/src/route_publisher.rs:607-644 | both announcements follow the Writers, stopping at the token that fails |
| RoutePublisher.RoutePublisher.Rebuild | zenoh-plugin-ros2dds/src/route_publisher.rs:671-733 | new state and result are those of the specification, no entity leaked wherever it fails |
| RoutePublisher.RoutePublisher.SetVolatileReader | zenoh-plugin-ros2dds/src/route_publisher.rs:758-787 | only the VOLATILE Reader and publisher are replaced |
| RoutePublisher.RoutePublisher.UpdateLocalWriters | zenoh-plugin-ros2dds/src/route_publisher.rs:607-667 | new state and result are those of the specification |
| RoutePublisher.RoutePublisher.AddLocalNode | zenoh-plugin-ros2dds/src/route_publisher.rs:875-885 | the first node announces the route |
| RoutePublisher.RoutePublisher.RemoveLocalNode | zenoh-plugin-ros2dds/src/route_publisher.rs:888-896 | the last node retires it |
| RoutePublisher.RoutePublisher.AddRemoteRoute | zenoh-plugin-ros2dds/src/route_publisher.rs:828-838 | the remote route is served, and Readers removed too late come back |
| RoutePublisher.RoutePublisher.RemoveRemoteRoute | zenoh-plugin-ros2dds/src/route_publisher.rs:841-849 | the last remote route takes the Readers with it |
| RoutePublisher.RoutePublisher.PruneRemoteRoutes | zenoh-plugin-ros2dds/src/route_publisher.rs:855-866 | the same for a bridge's routes, told if any went |
| RoutePublisher.RoutePublisher.Drop | zenoh-plugin-ros2dds/src/route_publisher.rs:240-252 | dropping the route deletes exactly its own Readers |
| FwdQueue.QueueLimit | zenoh-plugin-ros2dds/src/route_publisher.rs:909-911 | the limit is the cache size where that lies between the default size and the channel's capacity, else the nearer of the two |
| FwdQueue.FwdQueue.Push | zenoh-plugin-ros2dds/src/route_publisher.rs:115-135 | an undisturbed push keeps the longest suffix of the queue that fits limit and byte budget and adds the sample, however large; each eviction is counted |
| FwdQueue.FwdQueue.Pop | zenoh-plugin-ros2dds/src/route_publisher.rs:137-144 | the oldest element leaves |
| FwdQueue.StepInv | zenoh-plugin-ros2dds/src/route_publisher.rs:74-144 | every single channel or counter operation of any thread keeps the accounting |
| FwdQueue.EveryInterleaving | zenoh-plugin-ros2dds/src/route_publisher.rs:74-144 | in every interleaving the byte counter is the bytes queued plus those in flight and never negative, elements leave in the order sent, and pushed = forwarded + dropped + queued + in flight |
| FwdQueue.ForwardedInOrder | zenoh-plugin-ros2dds/src/route_publisher.rs:417-450 | what the forwarder gets is what was taken for it, in order |
| FwdQueue.NothingUncounted | zenoh-plugin-ros2dds/src/route_publisher.rs:74-144 | with all threads idle the counters are exact |
| Liveliness.EscapeRoundTrip | zenoh-plugin-ros2dds/src/liveliness_mgt.rs:188-198 | escaping leaves no slash and is undone iff the replacement character did not occur |
| Liveliness.WriteQos | zenoh-plugin-ros2dds/src/liveliness_mgt.rs:202-233 | the buffer ends up with the encoding |
| Liveliness.QosRoundTrip | zenoh-plugin-ros2dds/src/liveliness_mgt.rs:202-271 | from Iron on decoding gives back everything significant iff user data is absent, or nonempty and without colon |
| Liveliness.QosRoundTripBeforeIron | zenoh-plugin-ros2dds/src/liveliness_mgt.rs:202-271 | before, everything but the user data |
| Liveliness.EncodingDistinguishes | zenoh-plugin-ros2dds/src/liveliness_mgt.rs:202-233 | encodings are equal iff everything significant is |
| Liveliness.PublisherKeyDistinguishes | zenoh-plugin-ros2dds/src/route_subscriber.rs:653-663 | keys of remote announcements are equal iff bridge, key, keyless flag and significant QoS are |
| Liveliness.TokenRoundTrip | zenoh-plugin-ros2dds/src/liveliness_mgt.rs:28-102 | whatever zenoh's formatter accepts as a part, a publisher or subscriber token is made and parsed back to what it was made from iff its parts are accepted, key and type have no replacement character and the user data is absent or nonempty without colon or slash |
| Liveliness.KindsDisjoint | zenoh-plugin-ros2dds/src/liveliness_mgt.rs:28-102 | no token is parsed as both kinds |
| Decimal.ParsePrintI32 | zenoh-plugin-ros2dds/src/liveliness_mgt.rs:202-271 | every 32-bit depth survives printing and parsing, in digits and sign only |
| RequestHeader.CreatedDistinct | zenoh-plugin-ros2dds/src/ros2_utils.rs:200-213 | headers made with different sequence numbers differ |
| RequestHeader.AttachmentRoundTrip | zenoh-plugin-ros2dds/src/ros2_utils.rs:230-277 | a header survives the attachment, endianness included |
| RequestHeader.WrapStripped | zenoh-plugin-ros2dds/src/route_service_srv.rs:397-555 | what one bridge strips the other puts back iff the second byte is at most 1 |
| RequestHeader.RequestArrives | zenoh-plugin-ros2dds/src/route_service_cli.rs:518-594 | a request reaches the server's DDS byte for byte, under the client's id, iff the second byte of its header is at most 1; otherwise it is dropped |
| RequestHeader.ReplyArrives | zenoh-plugin-ros2dds/src/route_service_cli.rs:596-639 | a reply reaches the client byte for byte iff the server kept id and endianness and the second byte is at most 1; otherwise it is dropped |
| ServiceServer.StepInv | zenoh-plugin-ros2dds/src/route_service_srv.rs:397-555 | every request, failed write, reply or collection keeps the correspondence of queries and entries |
| ServiceServer.AnsweredOnce | zenoh-plugin-ros2dds/src/route_service_srv.rs:397-555 | over every run a query is answered at most once, only by a reply with its id, and as long as it waits it is the one a reply with that id would answer |
| ServiceServer.FailedWriteOwn | zenoh-plugin-ros2dds/src/route_service_srv.rs:397-496 | a failed write gives up its own query, if it still waits, and no other, iff no other query waits under its id since the same instant; with distinct instants none does |
| ServiceServer.SameInstantGivesUpNewer | zenoh-plugin-ros2dds/src/route_service_srv.rs:397-496 | with equal instants it gives up the newer one |
| ServiceServer.QueriesInProgress.Enter | zenoh-plugin-ros2dds/src/route_service_srv.rs:397-496 | old entries are collected, the new one is in |
| ServiceServer.QueriesInProgress.GiveUp | zenoh-plugin-ros2dds/src/route_service_srv.rs:397-496 | only an entry made at that instant goes |
| ServiceServer.QueriesInProgress.TakeReply | zenoh-plugin-ros2dds/src/route_service_srv.rs:498-555 | the entry of the reply's id, if any, goes and its query is answered with the payload |
| ServiceServer.ClientRequest.OnReply | zenoh-plugin-ros2dds/src/route_service_cli.rs:596-639 | only the first reply to a request is written to DDS, under the request's id |
| Dds.StepLeaksNothing | zenoh-plugin-ros2dds/src/route_service_cli.rs:373-516 | over any set of holders: if a step touches only its own holder's entities, live and advertised ones are afterwards again exactly those held |
| Dds.Dds.CreateAdvertised | zenoh-plugin-ros2dds/src/route_publisher.rs:1003-1074 | an entity is kept only if its GUID could be read, and is then advertised; else nothing is left |
| Bridge.Bridge.OnSubscriber | zenoh-plugin-ros2dds/src/route_subscriber.rs:132-663 | whatever happens to a subscriber route of a bridge, live entities and advertised GIDs are exactly those its routes of all kinds hold, each by one |
| Bridge.Bridge.OnPublisher | zenoh-plugin-ros2dds/src/route_publisher.rs:570-906 | the same for a publisher route, callbacks and failing calls included |
| Bridge.Bridge.CreateSubscriber | zenoh-plugin-ros2dds/src/route_subscriber.rs:204-258 | the same when such a route is created |
| Bridge.Bridge.DropSubscriber | zenoh-plugin-ros2dds/src/route_subscriber.rs:132-156 | the same when it is dropped |
| Bridge.Bridge.CreatePublisher | zenoh-plugin-ros2dds/src/route_publisher.rs:321-352 | the same, and a route that cannot be completed leaves nothing behind |
| Bridge.Bridge.DropPublisher | zenoh-plugin-ros2dds/src/route_publisher.rs:240-252 | the same when it is dropped |
| Bridge.Bridge.CreateClient | zenoh-plugin-ros2dds/src/route_service_cli.rs:126-219 | the same for a service client route |
| Bridge.Bridge.ActivateClient | zenoh-plugin-ros2dds/src/route_service_cli.rs:373-485 | the same, wherever activation fails |
| Bridge.Bridge.DeactivateClient | zenoh-plugin-ros2dds/src/route_service_cli.rs:487-516 | the same |
| Bridge.Bridge.DropClient | zenoh-plugin-ros2dds/src/route_service_cli.rs:99-112 | the same |
| Bridge.Bridge.CreateServer | zenoh-plugin-ros2dds/src/route_service_srv.rs:129-247 | the same for a service server route, wherever its creation fails |
| Bridge.Bridge.DropServer | zenoh-plugin-ros2dds/src/route_service_srv.rs:95-115 | the same |
| RouteEntities.RouteServiceCli.Activate | zenoh-plugin-ros2dds/src/route_service_cli.rs:373-485 | both entities come or none, at whichever of the steps it fails, and none is overwritten |
| RouteEntities.RouteServiceCli.Deactivate | zenoh-plugin-ros2dds/src/route_service_cli.rs:487-516 | both are withdrawn and deleted |
| RouteEntities.RouteServiceSrv.Create | zenoh-plugin-ros2dds/src/route_service_srv.rs:129-247 | the route exists iff every step succeeded, and otherwise nothing is live or advertised |
| RouteEntities.RouteServiceSrv.Drop | zenoh-plugin-ros2dds/src/route_service_srv.rs:95-115 | exactly its entities are withdrawn and deleted |
| ActionRoutes.PrunedTogether | zenoh-plugin-ros2dds/src/route_action_srv.rs:238-257 | pruning by a bridge's prefix takes a route's entry iff it takes the sub-route's |
| ActionRoutes.RunInStep | zenoh-plugin-ros2dds/src/route_action_srv.rs:181-303 | over every run the five sub-routes have the users of the action route, under their own keys |
| ActionRoutes.UnusedTogether | zenoh-plugin-ros2dds/src/route_action_cli.rs:195-318 | so the action is unused, asked of its sub-routes, iff it has no user itself |
| ActionRoutes.RouteAction.AddRemoteRoute | zenoh-plugin-ros2dds/src/route_action_srv.rs:181-205 | own users and all sub-routes take the step |
| ActionRoutes.RouteAction.RemoveRemoteRoute | zenoh-plugin-ros2dds/src/route_action_srv.rs:208-235 | the same |
| ActionRoutes.RouteAction.PruneRemoteRoutes | zenoh-plugin-ros2dds/src/route_action_srv.rs:238-257 | the same, and tells whether anything was pruned anywhere |
| ActionRoutes.RouteAction.AddLocalNode | zenoh-plugin-ros2dds/src/route_action_srv.rs:260-279 | the same |
| ActionRoutes.RouteAction.RemoveLocalNode | zenoh-plugin-ros2dds/src/route_action_srv.rs:282-294 | the same |

## Left out

- Routes.RoutedIffNeeded: subscriber routes only on runs without matched-reader events, because the code leaves unused
  ones behind; `Routes.MatchedExact` and `Routes.MatchedLeavesUnused` say which.
- LocalRoutes.RoutedIffHeld: every event reaches the route manager, every call there succeeds and the configuration
  allows everything; failures and retries are in `RetryRuns`.
- RouteSubscriber.WritersOfLive: asks that updates succeed; after a failure the Writers are behind until the next
  successful update (`RouteSubscriber.UpdateSyncs`).
- QosMatching.ServedExactlyOnce: partition, ownership and data representation are not compared; a sample of a Writer
  that is already gone is not considered.
- RoutePublisher.UpdateFollows: topic routes whose name is not that of an action message; fixed-QoS routes are left as
  they are by an update.
- RoutePublisher.ReannouncementKept: takes the retirement of a token to be delivered even if a token of the same key
  replaced it; what zenoh does then is not part of this model.
- QosMatching.RemoteOfferKept: reliability and durability only; for announcements that came as tokens
  `AcrossBridges.ArrivedOffer` has all policies.
- Liveliness.TokenRoundTrip: which parts zenoh's formatter accepts is left open, but for it taking no empty part and no
  more than one part.
- QosOrder.OneDepth: keyless topics whose TRANSIENT_LOCAL Writers are all KEEP_LAST; sums beyond 64 bits do not wrap.
- FwdQueue.EveryInterleaving: atomics are sequentially consistent, and a pusher may evict whenever it likes.
- RequestHeader.CreatedDistinct: sequence numbers below 2^64.
- DDS calls, listeners, CDR and the threads reading `ros_discovery_info`: a call is an outcome, a message an event.
- Zenoh sessions, tokens, queriers, matching listeners, timers and the asynchronous runtime: only the steps they cause.
- The fields of a node's six interface maps are one map by kind and name, Readers and Writers one map by side and gid,
  the participant's nested node maps one map by participant and name, undiscovered gid lists one set: order in those
  lists and duplicates in them are not captured. Nodes are held by value, as their map owns them.
- Replies to admin queries and JSON: the admin space is its set of keys.
- Configuration and allow/deny expressions: a fixed predicate on kind and name.
- QoS of endpoints during discovery, and `ros_participant_info`.
- DDS topics shorter than three bytes, which stop the program: they are dispatched to nothing.
- The event a changed local Writer raises: routes handle it, discovery does not emit it.
- Action routes with fixed QoS, the delayed recheck of matched Readers, and whether an active Reader implies a matching
  subscriber (the flag is read before the lock is taken).
- Service and action liveliness tokens, QoS policies that are not encoded, codes outside the enumerations, user data
  that is not UTF-8.
- How a service route is announced and retired: only who uses it, in `Routes`.
- Request timeouts other than the one-hour collection, priorities, congestion control, logging and display counters.
