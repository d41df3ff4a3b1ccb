# Encrypted backhaul of the mesh plugin: model and proofs

A main router and its leaf routers replace a plaintext uplink by an encrypted one, either MACsec or
WireGuard under VXLAN. They agree on it over HTTPS, and may take it back over raw Ethernet frames. On
each router a reconcile pass drives the kernel towards the stored configuration while request handlers
change that configuration. This project models that machinery and proves what it is for.

| file | part of the system |
|---|---|
| `Base.dfy`, `MtuMath.dfy`, `Names.dfy` | configuration records and constants, encapsulation arithmetic, addresses and device names |
| `Codec.dfy` | the control frame: layout, tag, builder, parser |
| `LeafConfig.dfy`, `LeafNode.dfy` | the leaf's association as a state machine over critical sections, and the handlers that take them |
| `WireDisable.dfy`, `PathMtu.dfy` | the two protocols on control frames: disable with acknowledgement, path-MTU search |
| `Enabling.dfy`, `Agreement.dfy`, `MainConfig.dfy`, `Separation.dfy` | the main router's change requests, what both ends agree on, interleavings, ports |
| `LinkSystem.dfy` | the kernel's devices; every command may fail |
| `Mka.dfy` | the participants that secure MACsec links, and the main router's pass over them |
| `PeerCache.dfy`, `WireGuard.dfy`, `MainTunnels.dfy` | the apply-once cache over runs, the commands that change it, the main router's passes |
| `LeafRuntime.dfy` | the leaf's pass: bring-up, teardown, commit |
| `MtuKeeper.dfy`, `GuardCache.dfy`, `MeshBridge.dfy` | original MTUs across crashes, nft tables and their caches, the bridge of secured links |
| `Neighbors.dfy` | neighbour synchronisation between access points |

Three devices recur. Shared records are changed by *events*, one per critical section of the program, so
a list of events is an interleaving and a lemma about all lists is a lemma about all schedules; class
methods keep a log of their events and are proved to be runs of that machine. The kernel keeps a
*history*: the device table after every primitive command, so "always" means after each command and not
only at the end of a pass. Commands fail arbitrarily, and what failed is on record: `lapses` are the
lookups, listings and deletions that failed although their object was there, `faults` those of them that
happened inside a teardown of the leaf, `misses` the MTU restores that failed. Safety over whole runs is
stated in terms of these, mostly as "if and only if". A system that is `steady` has none of them; where
every command `works`, passes bring about what they are for, and that is stated too.

Times are in milliseconds except `enabledAt`, which is in seconds as stored.

## What turned out not to hold

Each of these is stated with the exact condition under which the property does hold.

* The bridge holds the raw uplink beside an encrypted port after a teardown exactly if the uplink
  rejoined and an encrypted port of the bridge could not be looked up, listed or deleted; over a whole
  run, some command leaves it so exactly if some teardown does this (`LeafRuntime.TeardownDecides`,
  `LeafRuntime.LeafManager.Run`; one failed deletion suffices, `LeafRuntime.FailedDeletionExample`).
* A pass that saw the router out of leaf mode gives back the uplink of a confirmed association exactly if
  leaf mode is on again at its teardown's check (`LeafRuntime.RejoinCauses`, `LeafRuntime.ModeFlipExample`).
* A cached peer is in the kernel as cached exactly if no later step that reached the kernel gave that peer
  another setting or its address to another peer (`PeerCache.PresentExactly`). That fails when a route
  cannot be set (`PeerCache.FailedRouteExample`), when a port is reused and the former peer is not yet
  cleaned up (`PeerCache.PortReuseExample`), when two leaves exchange ports and the second peer command
  fails (`PeerCache.ExchangedPortsExample`), and on a leaf whose main router changes its key and later
  returns to the former one (`PeerCache.ReturnedKeyExample`).
* A confirmation looks at the nonce alone: a pass confirms an association whose link it never secured
  exactly if the nonce it read was enabled in the other mode meanwhile, and that is still stored
  unconfirmed (`LeafConfig.ConfirmCrossesModes`, `LeafConfig.ConfirmCrossesModesExample`). The main router never
  makes such an offer (`Agreement.OfferKeepsMode`).
* An acknowledged disable leaves the record in place exactly if another disable was already marked since
  the keys were armed (`WireDisable.DisableCompletes`); a mark that lands after a re-arming does this
  (`WireDisable.LateMarkExample`).
* A push ignores the leaf's reply, so the two ends can store different MACsec link MTUs
  (`Agreement.PushAgreement`, `Agreement.JumboPushDisagrees`).
* The tunnel packets of a jumbo leaf do not fit the main router's one WireGuard device beside a plain
  leaf (`Agreement.TunnelsFitCondition`, `Agreement.MixedLeavesDoNotFit`).
* A failed restore drops the record of the original MTU. Nothing is lost exactly if every interface whose
  restore failed had its original MTU anyway (`MtuKeeper.Keeper.Lifetime`, `MtuKeeper.OriginalSurvives`).
* A secured member of the main router's bridge is not isolated exactly if an earlier pass could neither
  isolate it nor take it off again and it has been on the bridge since
  (`MeshBridge.SecuredUnisolatedExactly`, `MeshBridge.Manager.Run`, `MeshBridge.UnisolatedSecuredExample`).
* A leaf's tunnel port is never made anew while it exists. It is that of the association exactly if none
  of another port had been left there (`WireGuard.TunnelExactly`), and one that was left stays until a
  teardown (`WireGuard.TunnelStays`, `WireGuard.StaleTunnelExample`).
* A neighbour run that stops after setting an entry that was not saved leaves it behind; the plugin's
  entries stay in its file exactly if no run does that and every removal owed is accepted
  (`Neighbors.TidyExactly`, `Neighbors.CleanExactly`, `Neighbors.FailedRunExample`).
* A frame larger than 65535 bytes carries its length truncated (`Codec.ParseOfFrame`).

Conversely, the port-conflict answer of an enable request can never be given (`MainConfig.ConflictNeverHappens`).

## Model

| member | source | states |
|---|---|---|
| Codec.BuildSized | code/macsec_ctl.go:72-90 | appending field by field yields the specified layout, or no frame exactly for a bad address length |
| Codec.FrameFields | code/macsec_ctl.go:52-90 | where every field of a built frame is, destination and zero padding included; its tag is that of the bytes between header and tag as they are sent |
| Codec.WireFormat | code/macsec_ctl.go:18-90 | the numbers on the wire: Ethernet type, mark, commands, least length |
| Codec.ParseOfFrame | code/macsec_ctl.go:72-125 | parsing a built frame returns command, source, challenge and padded size exactly for sizes up to 65535; larger ones are read truncated or refused |
| Codec.AcceptedIffBuilt | code/macsec_ctl.go:97-125 | a frame is accepted with a result exactly when bytes 6 to 89 are those of the frame built for that result and it is long enough |
| Codec.AnswerMeets | code/macsec_ctl.go:161-181 | what a leaf answers goes to the sender and is read there as the reply to its probe, or as the acknowledgement of its disable, with the same challenge; to anything else there is no answer |
| Codec.MessageInjective | code/macsec_ctl.go:52-60 | the tagged message determines command, key name, challenge and size |
| LeafConfig.AssociationStep | code/macsec_runtime.go:930-961 | one critical section ends the stored association exactly in the listed cases; while it stays, deadline and confirmation stay |
| LeafConfig.FailClosed | code/macsec_ctl.go:161-200 | in every interleaving, requests caught between their leaf-mode check and their write included, a confirmed association stays confirmed unless a token-checked disable, a replacing enable, a wire disable for its own nonce, or leaving leaf mode ends it |
| LeafConfig.DeadlineFixed | code/macsec_api.go:465-487 | no interleaving of re-sent enables and stale passes moves the deadline of a pending association |
| LeafConfig.ResentEnable | code/macsec_api.go:465-487 | re-sending an enable for the stored nonce and mode keeps deadline and confirmation; any other starts afresh, unconfirmed |
| LeafConfig.RepliedExactly | code/macsec_api.go:405-463 | an enable is answered exactly if token, nonce, sizes, port, key and interfaces are as required, with the sizes that suit both ends; a missing key of the leaf alone is an error of its own |
| LeafConfig.AcceptedRecord | code/macsec_api.go:384-487 | an admitted request with the right token stores what it asked for in the mode asked for, or the empty record for a disable; any other leaves the record alone |
| LeafConfig.StalePassHarmless | code/macsec_runtime.go:934-955 | a pass confirms or reverts exactly the unconfirmed association with the nonce it read, never another |
| LeafConfig.ConfirmedOnlyByPass | code/macsec_runtime.go:934-944 | a confirmation comes only from a pass that read the stored nonce |
| LeafConfig.StoredExactly | code/macsec_api.go:465-487 | over every run, an association not stored at its start is stored at its end if and only if some event enabled it and no later one ended it |
| LeafConfig.ConfirmCrossesModes | code/macsec_runtime.go:934-944 | over any events between its read and its commit: a pass confirms an association of the other mode exactly if the nonce it read was enabled in that mode in between and nothing ended or confirmed that |
| LeafConfig.ConfirmCrossesModesExample | code/macsec_runtime.go:934-944 | a run in which it does |
| LeafNode.LeafNode.MacsecPeer | code/macsec_api.go:374-492 | the handler is a leaf-mode check and a later write with anything in between; it succeeds exactly for a router that was a leaf at the check, with the right token and a valid request, with the reply that is due and the record that was asked for, and changes nothing otherwise |
| LeafNode.LeafNode.CommitPeer | code/macsec_api.go:384-487 | the write: the stored record is what was asked for, with deadline and confirmation kept for the same nonce and mode; a refusal changes nothing and is a 403 exactly for a wrong or empty token |
| LeafNode.LeafNode.Confirm | code/macsec_runtime.go:934-944 | confirms exactly when the snapshot's nonce is still stored and enabled |
| LeafNode.LeafNode.Revert | code/macsec_runtime.go:951-957 | clears exactly when the unconfirmed association of the snapshot is still stored |
| LeafNode.LeafNode.HandleLeafCtl | code/macsec_ctl.go:161-200 | one of several listeners: under the armed keys the answer sent reaches the sender and is read there as the reply or acknowledgement with its challenge; only a first disable leads to the clearing section; other goroutines and listeners run in between |
| LeafNode.LeafNode.CtlKeys | code/macsec_ctl.go:135-147 | reads the armed keys and forgets them once the acknowledgement window is over |
| WireDisable.AckMeansAccepted | code/macsec_ctl.go:202-241 | over any lossy, duplicating, replaying, injecting network: an acknowledged attempt with a fresh challenge was accepted by the leaf, under those keys, after it began |
| WireDisable.InvExec | code/macsec_ctl.go:161-241 | the protocol invariant holds along every run of both ends |
| WireDisable.AwaitAck | code/macsec_ctl.go:236-240 | the wait ends with the first matching acknowledgement and passes over everything else |
| WireDisable.ClearOnlyOwnNonce | code/macsec_ctl.go:191-196 | the wire clears the record only when its nonce is that of the verifying keys, and then that nonce is gone |
| WireDisable.RepeatsHarmless | code/macsec_ctl.go:182-190 | after a disable was marked and no listener is still clearing, further frames to any listener leave record and mark alone |
| WireDisable.AcksStop | code/macsec_ctl.go:135-147 | unless re-armed, nothing is accepted or acknowledged once 30 s have passed since the first disable |
| WireDisable.AcksLast | code/macsec_ctl.go:135-147 | until then the keys stay armed, whatever handlers and passes do, a pass that reads the cleared record included |
| WireDisable.DisarmedDeaf | code/macsec_runtime.go:754-759 | without a first disable such a pass drops the keys, and nothing is answered until keys are armed again |
| WireDisable.SignedIsSent | code/macsec_ctl.go:161-181 | the message a leaf signs when it hears a frame is that of the frame it sends in answer, and it signs none exactly if it sends none |
| WireDisable.AnswerIsAck | code/macsec_ctl.go:179-240 | the answer to the disable of an attempt is the acknowledgement that this attempt waits for |
| WireDisable.Undisturbed | code/macsec_ctl.go:161-241 | an attempt whose frame and answer get through a network succeeds: it is acknowledged, and the record with the nonce of its keys is gone |
| WireDisable.AckMeansHeard | code/macsec_ctl.go:161-182 | an acknowledged attempt was at some point in the hands of a listener, under its keys |
| WireDisable.AckedDisableClears | code/macsec_ctl.go:161-241 | over any network: an acknowledged attempt was heard, and once its listener is through, as the first since the keys were armed and with a readable configuration, the association is gone until a later enable for its nonce |
| WireDisable.DisableCompletes | code/macsec_ctl.go:182-200 | whatever runs between the sections, a heard disable leaves a record with its nonce exactly when another disable was already marked since the keys were armed |
| WireDisable.GoneStays | code/macsec_ctl.go:191-196 | without a later enable for its nonce a cleared record stays cleared |
| WireDisable.LateMarkExample | code/macsec_runtime.go:836-845 | a disable marked after a re-arming makes the next, acknowledged one clear nothing |
| PathMtu.TestUnderlayMTU | code/macsec_ctl.go:269-306 | the result is an authenticatedly answered size under any network; on a path with limit P it is within 7 of min(P, cap) and never above; probes are bounded by 2 plus the logarithm of the range; each error has its cause |
| PathMtu.Search | code/macsec_ctl.go:296-305 | the bracket always has an answered lower end and, on a path with a limit, contains the limit |
| PathMtu.HalvingsIsLog | code/macsec_ctl.go:296-304 | the bound on rounds is the binary logarithm of range/8, rounded up |
| PathMtu.Wire.ProbeFrame | code/macsec_ctl.go:243-265 | two attempts with one challenge; on a path with a limit, a probe addressed to the leaf or to everybody succeeds exactly up to the limit, and tells the leaf's address |
| PathMtu.ReplyAccepted | code/macsec_ctl.go:166-175 | the leaf's answer to a probe is accepted as the reply to it |
| Enabling.AllocateMACsecPort | code/macsec.go:311-324 | the least free port, or failure exactly when 2 to 65000 are all taken |
| Enabling.EnableLeafMACsec | code/macsec_api.go:146-223 | filling in the record step by step yields the one offer that is due, or none exactly if none is |
| Enabling.PreparedExactly | code/macsec_api.go:146-223 | what an offer is in terms of the request: in the mode asked for, over the interface asked for or in use, no larger than asked for and as large as fits, under the nonce that goes on or a new one, with the port kept or the least free; and the leaf is told the same. It is made exactly if there is such a one |
| Enabling.FinishedExactly | code/macsec_api.go:224-252 | which record a reply makes of the offer, and which replies make none |
| Enabling.RecordAsAsked | code/macsec_api.go:146-252 | from the request to the record: mode, interface and size are what the administrator asked for |
| Enabling.PushedExactly | code/macsec_api.go:531-606 | a test stores what was measured and a jumbo switch the new flag, with the largest link MTU that fits, and nothing else changes; switching to what is set is no push |
| Agreement.EnableAgreement | code/macsec_api.go:224-252 | once the leaf accepted, the main router can refuse only malformed replies, and both ends agree on nonce, mode, jumbo, link MTU, port and underlay, with the MTU in range |
| Agreement.OfferKeepsMode | code/macsec_api.go:182-196 | an offer has the stored nonce exactly when it continues the stored association in its mode |
| Agreement.PushAccepted | code/macsec_api.go:544-566 | a leaf that can answer accepts a push exactly if the association's port and what is pushed are in range: the request carries all that its mode asks for |
| Agreement.PushAgreement | code/macsec_api.go:544-606 | after an accepted push the ends agree exactly when a MACsec push does not exceed the leaf's own maximum |
| Agreement.PlainPushAgrees | code/macsec_api.go:509-607 | without jumbo frames every accepted push leaves the ends agreed |
| Agreement.JumboPushDisagrees | code/macsec_api.go:594-606 | a concrete push that leaves 1500 against 1468 |
| Agreement.WGMainMTU | code/macsec_runtime.go:561-569 | the largest device MTU whose sealed packets fit every WireGuard leaf's underlay; 0 exactly without such leaves |
| Agreement.InnerFitsUnderlay | code/backhaul_wg.go:99-105 | a leaf's full frame with both encapsulations fits its underlay |
| Agreement.TunnelsFitCondition | code/backhaul_wg.go:379-391 | all tunnels fit the shared device exactly when no underlay exceeds another, counted up to 1610 bytes |
| Agreement.MixedLeavesDoNotFit | code/backhaul_wg.go:379-391 | a jumbo leaf beside a plain one is a concrete case that does not fit |
| MainConfig.ReachableSound | code/mesh.go:735-787 | in every interleaving from an empty configuration: pairs are unique, associations enabled, ports distinct and in range |
| MainConfig.NoLostUpdate | code/macsec_api.go:562-570 | a committing push overwrites exactly the association it was computed from, and nothing else |
| MainConfig.PushCommitsExactly | code/macsec_api.go:562-570 | a push commits exactly when its leaf is still paired with the same association |
| MainConfig.PushWrites | code/macsec_api.go:562-570 | in every reachable state the nonce check writes a push exactly into the unchanged association |
| MainConfig.ConflictNeverHappens | code/macsec_api.go:294-308 | the port an enable computed from its snapshot is still free when it commits |
| MainConfig.PreservedExactly | code/mesh.go:752-760 | a PUT keeps exactly the association of the entry with that address and token |
| MainConfig.PutKeepsOthers | code/mesh.go:740-780 | a PUT leaves its leaf one entry with the certificate that was fetched, the association it had, and waiting as given unless that is enabled; all other entries stay, and so they do in a DELETE |
| MainConfig.StepKeepsInv | code/macsec_api.go:255-314 | each critical section keeps uniqueness, ports, and the relation to the running request's snapshot |
| MainConfig.MainRouter.FindLeafByIP | code/macsec_api.go:105-112 | the first leaf with the address, or -1 |
| MainConfig.MainRouter.PutLeaf | code/mesh.go:723-787 | rebuilding the list in a loop is the PUT event; refused exactly for a given or missing certificate; afterwards every other leaf has its entries as before and this one has exactly one, with the fetched certificate and the association it had |
| MainConfig.MainRouter.DeleteLeaf | code/mesh.go:740-787 | rebuilding the list without the entry is the DELETE event: no entry of this leaf is left and every other one is as before |
| MainConfig.MainRouter.SetLeaf | code/macsec_api.go:255-314 | with PUTs and DELETEs in between, which answer is given when, and what is written: nothing, or in the record of this leaf alone what was asked for and agreed on, or none after a disable |
| MainConfig.MainRouter.PushLeaf | code/macsec_api.go:544-573 | with PUTs and DELETEs in between, which answer is given when; after success the push is written exactly where the leaf is still paired with the association the request read, and nothing else is; afterwards each association is one from before the call, as it was or with the push applied |
| Separation.LeavesSeparated | code/macsec.go:164-175 | in every reachable configuration two leaves differ in secure channel identifier, addresses and tunnel ports |
| Separation.EndsSeparated | code/backhaul_wg.go:72-93 | the main router's ports and addresses are never those of a leaf |
| Separation.MembersDistinct | code/macsec_runtime.go:571-687 | the links a main pass reports have distinct members, none of them the bridge |
| Names.NamesInjective | code/backhaul_wg.go:72-93 | addresses and device names determine the port |
| Names.FirstLeaf | code/backhaul_wg.go:72-93 | the addresses and names of the first leaf and of the last possible one, written out |
| Mka.SCIInjective | code/macsec.go:164-175 | the identifier determines MAC address and port |
| Mka.SCIValue | code/macsec.go:164-175 | its low 16 bits are the port |
| Mka.SCIOctets | code/macsec.go:164-175 | it is the octets of the address and the port, in network order |
| Mka.FindMACsecLink | code/macsec.go:280-287 | the first device with both parent and identifier, or none exactly if there is none |
| Mka.Participants.DeleteSecY | code/macsec_runtime.go:356-368 | deletes only devices of that very parent and identifier; all of them are gone unless a listing or deletion failed, which it reports exactly |
| Mka.Participants.StopMKA | code/macsec_runtime.go:345-354 | removes one participant and its device; nobody else's device is deleted |
| Mka.Participants.EnsureMKA | code/macsec_runtime.go:306-343 | keeps a participant that runs as configured and has not exited, else starts it anew where no device of its identifier is left, which fails only for an invalid configuration or a failed command; nobody else's device is deleted |
| Mka.Participants.StopAllMKA | code/macsec_runtime.go:536-542 | keeps exactly the wanted participants and deletes devices only of the others |
| Mka.Participants.RestartIfStuck | code/macsec_runtime.go:480-501 | restarts exactly an overdue participant; restarts of one participant stay 30 s apart over the whole run |
| Mka.Participants.NoPeerErrorFor | code/macsec_runtime.go:507-521 | remembers since when a link is unsecured and reports exactly from a minute on |
| Mka.Participants.MainLeaf | code/macsec_runtime.go:628-684 | one leaf's turn: it gets its participant exactly if its record is usable and its interface found, which runs as recorded unless its link has been down too long, and only then is stopped; nobody else's participant or device is touched |
| Mka.Participants.ReconcileMain | code/macsec_runtime.go:571-687 | after a main pass only enabled MACsec leaves have a participant and, with working commands, all of them that can, with the recorded keys, but for those just stopped as stuck; it deleted devices only for their ports or those of earlier participants |
| Mka.StartableExactly | code/macsec_runtime.go:622-645 | a record is usable exactly if it is enabled for MACsec, its keys can be derived and are of the right lengths, and interface and port are valid; what its participant then is |
| Mka.ParticipantsMeet | code/macsec_runtime.go:622-642 | the participants of the two ends of a link have the same keys and different ports, and the main router's has the better priority |
| WireGuard.PeerStepSound | code/backhaul_wg.go:292-302 | exactly when one peer step keeps every cached peer present in the kernel |
| WireGuard.DistinctPortsAddressFree | code/backhaul_wg.go:85-87 | a tunnel address is free exactly when no other cached peer was set for that port, present record or not |
| WireGuard.Backhaul.EnsureUnderlay | code/backhaul_wg.go:231-265 | success means the route is there unless it could not be listed; a lost one is set again; what was not cached is there afterwards, address and route |
| WireGuard.Backhaul.EnsureWGIface | code/backhaul_wg.go:267-290 | a new device forgets what was applied to an earlier one and gets its address; with working commands it has its MTU |
| WireGuard.Backhaul.EnsureWGPeer | code/backhaul_wg.go:292-302 | success means the peer is in the kernel as asked; soundness is kept exactly under the stated condition |
| WireGuard.Backhaul.Overlay | code/backhaul_wg.go:379-393 | on success and on failure: which cache entries changed, how far the step got, soundness kept exactly under the stated condition, and the tunnel port made with its port and addresses unless one of that name was there |
| WireGuard.Backhaul.MainWGLeaf | code/backhaul_wg.go:358-395 | on success and on failure: the changes of one leaf's turn as logged, of which only its peer step can spoil the cache; the tunnel port is that of the leaf's port unless another was there under its name; with working commands and a usable record it succeeds, addresses, route and MTUs included |
| WireGuard.Backhaul.LeafTunnel | code/backhaul_wg.go:463-477 | the same for a leaf: success leaves device, addresses, cached peer setting and tunnel port |
| WireGuard.SettingsMeet | code/backhaul_wg.go:72-93 | for every port: each end's peer has the other end's tunnel address and underlay address, both have one secret, and the tunnel ports one identifier and each other's addresses |
| WireGuard.EndsMeet | code/backhaul_wg.go:378-477 | once the two ends of a link are up, what each has cached for its peer is what the other has cached as its own |
| WireGuard.TunnelExactly | code/backhaul_wg.go:304-315 | the tunnel port is that of the association exactly if none of another port was left |
| WireGuard.TunnelStays | code/backhaul_wg.go:304-315 | without a teardown it stays what it was, whatever the ports of later associations |
| WireGuard.StaleTunnelExample | code/backhaul_wg.go:476-476 | two passes after which the tunnel port is that of a replaced association |
| WireGuard.Backhaul.CleanupMainWG | code/backhaul_wg.go:397-425 | only unwanted peers and tunnel ports go, and with working commands all of them; a sound cache stays sound; with the peers listed, only wanted peers stay cached; with none wanted device and cache are gone |
| WireGuard.Backhaul.TeardownWG | code/backhaul_wg.go:489-507 | tunnel port before device, then an empty cache |
| PeerCache.PresentExactly | code/backhaul_wg.go:231-302 | over every run of peer steps, re-creations, removals and teardowns: a cached peer is in the kernel as cached if and only if it was not spoiled since it was last set |
| PeerCache.SoundExactly | code/backhaul_wg.go:231-302 | so the whole cache is sound exactly if no cached peer is spoiled |
| PeerCache.CompletePass | code/backhaul_wg.go:358-425 | a pass whose peer steps all complete and whose cleanup knows the unwanted peers leaves nothing spoiled, even if it moved addresses between peers |
| PeerCache.FailedRouteExample | code/backhaul_wg.go:292-302 | a failed route leaves the old entry, and asking for it again is skipped |
| PeerCache.PortReuseExample | code/backhaul_wg.go:397-425 | a reused port leaves the former peer stale until the cleanup forgets it |
| PeerCache.ExchangedPortsExample | code/backhaul_wg.go:292-302 | exchanged ports and one failed peer command leave a wanted peer stale though every route was set |
| PeerCache.ReturnedKeyExample | code/backhaul_wg.go:445-475 | on a leaf: a key changed and changed back is taken for set although it is not; after a teardown it is set |
| PeerCache.PortTupleInjective | code/backhaul_wg.go:72-89 | secret file, tunnel address or endpoint alone determine the port |
| MainTunnels.Tunnels.Reconcile | code/macsec_runtime.go:571-687 | after a pass in which anything may have failed, exactly the unspoiled cached peers are in the kernel; with smooth passes so far, all are; with working commands the pass is smooth, every usable link is up and nothing else of the backhaul is left |
| MainTunnels.Tunnels.Run | code/macsec_runtime.go:214-234 | the same for any number of passes over changing configurations, the device lost in between |
| LeafRuntime.RejoinSafe | code/macsec_runtime.go:963-992 | after a complete teardown the uplink may rejoin |
| LeafRuntime.TeardownExclusive | code/macsec_runtime.go:963-992 | for every table a teardown may list and every set of failures: the bridge ends exclusive exactly if the uplink is off it or no device left over was an encrypted port of it |
| LeafRuntime.TeardownDecides | code/macsec_runtime.go:963-992 | for every teardown by its contract: exclusiveness is broken exactly if the uplink rejoined and an encrypted port of the bridge could not be removed |
| LeafRuntime.TeardownBlame | code/macsec_runtime.go:963-992 | if it does not, one of the failed calls was for an encrypted port that was on the bridge before the teardown began |
| LeafRuntime.RejoinCauses | code/macsec_runtime.go:214-234 | a pass gives the uplink back only for a record it read as disabled, one it cleared itself, or because leaf mode was switched on between its two checks |
| LeafRuntime.FailedDeletionExample | code/macsec_runtime.go:963-992 | a starting table from which a teardown, by its contract, ends with both on the bridge if one deletion fails, and not otherwise |
| LeafRuntime.ModeFlipExample | code/macsec_runtime.go:544-555 | a pass, by its contract, that rejoins the uplink while the association is stored and confirmed |
| LeafRuntime.LeafManager.Unbridge | code/macsec_runtime.go:806-817 | the uplink is off every bridge, and nothing else changed, unless it was not found or not let go; on a steady system it is off whenever it exists |
| LeafRuntime.LeafManager.Bringup | code/macsec_runtime.go:795-928 | how far a bring-up gets, and why: with the uplink off the bridge and a usable token the keys of this association are armed and its link comes up as far as what was found allows; with working commands a protected device or a recent handshake is exactly what it takes |
| LeafRuntime.LeafManager.BridgeSecY | code/macsec_runtime.go:898-921 | a device is bridged only while it forwards protected frames only, and taken out when it is up without |
| LeafRuntime.LeafManager.LeafWG | code/backhaul_wg.go:445-487 | a secured tunnel port is on the bridge, over its WireGuard device, with the peer setting cached; it is the one of this association unless another was left there; with working commands a link is secured exactly after a recent handshake |
| LeafRuntime.LeafManager.TeardownLeaf | code/macsec_runtime.go:963-992 | its whole result: what is left is determined by the listed table and the failed calls; the uplink is given back exactly if the router is a leaf at that moment, its name is valid and the bridge was found; the bridge ends up with both exactly if it rejoined beside a port that could not be removed |
| LeafRuntime.LeafManager.ConfirmOrRevert | code/macsec_runtime.go:930-961 | commits by the rules: nothing before the deadline, confirmation when secured, a revert of exactly the snapshot's association after it |
| LeafRuntime.LeafManager.ReconcileLeaf | code/macsec_runtime.go:751-928 | every early return commits by the rules; a registered pass leaves the uplink off the bridge unless it gives it back or could not take it off, and has armed the association's keys; up to a rejoin the bridge stays exclusive; only teardown failures count as faults; the uplink rejoins only by a teardown, for a disabled record or one this pass cleared; a secured link is the one of this association, with its participant or peer setting, and the devices of the other mode gone |
| LeafRuntime.LeafManager.Reconcile | code/macsec_runtime.go:214-234 | a whole pass of either role, with handlers anywhere in between: exclusive bridging after every command is lost if and only if its teardown rejoins beside a stuck port; what it did as a leaf or in leaving leaf mode is as stated for these; a pass that cannot read the record changes nothing |
| LeafRuntime.LeafManager.Run | code/macsec_runtime.go:214-234 | any number of passes: the bridge was exclusive after every command if and only if no teardown gave the uplink back beside an encrypted port that it could not remove; and exactly the unspoiled cached peers are in the kernel |
| LeafRuntime.BreaksExactly | code/macsec_runtime.go:963-992 | the tables of one pass stay exclusive exactly if its teardown, if any, does not break that |
| LeafRuntime.LeafManager.CacheExact | code/backhaul_wg.go:231-302 | at any point of a run of leaf passes, exactly the unspoiled cached peers are in the kernel |
| LeafRuntime.LeafManager.LeaveLeafMode | code/macsec_runtime.go:544-555 | what a pass of a router that is no leaf does about an association: a teardown exactly when something is left, a rejoin exactly by the check of that teardown, and otherwise the association is forgotten |
| MtuKeeper.Keeper.RaiseParentMTUTo | code/macsec_runtime.go:382-407 | raises to the target as far as the driver reaches and never lowers, records the MTU before that, and never replaces a record |
| MtuKeeper.Keeper.Load | code/macsec_runtime.go:409-427 | reads the record once, exactly its plausible entries |
| MtuKeeper.Keeper.RestoreUnusedMTU | code/macsec_runtime.go:436-456 | every interface not in use loses its record and gets its own MTU back unless that failed; afterwards the file suffices exactly if each of the failed ones had its original MTU before |
| MtuKeeper.Keeper.Lifetime | code/macsec_runtime.go:214-234 | over any passes, with teardowns at any point of them and crashes between any two steps: what is on disk always suffices to restore, if and only if every failed restore was of an interface at its original MTU; a last pass then restores all it does not use |
| MtuKeeper.OriginalSurvives | code/macsec_runtime.go:436-456 | after raise, release, raise to any target, release, the original is back exactly when the first restore worked |
| GuardCache.TableCache.InstallTable | code/macsec_runtime.go:698-711 | success means the live table is the ruleset's, whatever happened since; a load is skipped only if the table was right and, with working commands, always then |
| GuardCache.LeafGuard.Apply | code/macsec_runtime.go:713-730 | success means exactly the requested mode's guard is live, with egress filtering unless that hook failed; failure means that nothing could be rendered, or that both attempts were refused |
| GuardCache.LeafGuard.Teardown | code/macsec_runtime.go:975-977 | no cached state keeps a later guard from loading |
| MeshBridge.RenderBridgeGuard | code/mesh_bridge.go:14-32 | fails exactly for an invalid pin, and otherwise makes the specified rules |
| MeshBridge.AdmitsExactly | code/mesh_bridge.go:14-32 | a source enters exactly by the port of all its pins, never as the router's own; nothing is forwarded |
| MeshBridge.SharedAddressBlocked | code/mesh_bridge.go:19-29 | an address pinned to two ports enters nowhere |
| MeshBridge.PinsOfLinks | code/mesh_bridge.go:35-45 | exactly the enabled links with a known address are pinned |
| MeshBridge.ProgressStep | code/mesh_bridge.go:71-82 | settling one link leaves the links settled before it settled |
| MeshBridge.Manager.Admit | code/mesh_bridge.go:71-82 | one member joins isolated, leaves again, stays, or is put off; with working commands a secured one is admitted |
| MeshBridge.Manager.ReconcileMeshBridge | code/mesh_bridge.go:34-83 | secured means on the bridge behind the guard pinning all enabled links, isolated unless it came in unisolated; nobody becomes unisolated but the stuck; without the guard none is secured and all members are off; with working commands and valid pins all that were secured are admitted |
| MeshBridge.Manager.Run | code/macsec_runtime.go:214-234 | any number of passes with anything in between: a secured member is unisolated exactly if an earlier pass left it stuck so and it has stayed on the bridge since; with no member ever stuck all secured members are isolated after every pass |
| MeshBridge.UnisolatedExactly | code/mesh_bridge.go:71-82 | the same for any device on the bridge, secured or not, after any pass |
| MeshBridge.SecuredUnisolatedExactly | code/mesh_bridge.go:71-82 | for secured members the pass that left it so is an earlier one |
| MeshBridge.NeverStuck | code/mesh_bridge.go:71-82 | a run without stuck members keeps every secured member isolated |
| MeshBridge.UnisolatedSecuredExample | code/mesh_bridge.go:74-81 | two passes by contract, the second of which reports a member as secured that the first left unisolated |
| MeshBridge.Manager.RemoveMeshBridge | code/mesh_bridge.go:85-94 | removes bridge and guard once and forgets the cache |
| Neighbors.MeshSecurityCompatible | code/mesh_neighbors.go:175-191 | the nested search finds a shared cipher exactly when there is one |
| Neighbors.CompatibleExactly | code/mesh_neighbors.go:175-191 | two descriptions are compatible exactly if they are four parts each, the first three the same, and the last the same or with a word in common |
| Neighbors.FieldsAreWords | code/mesh_neighbors.go:183-184 | the fields of a string are its words |
| Neighbors.SplitJoins | code/mesh_neighbors.go:176-176 | splitting loses nothing and no part contains the separator |
| Neighbors.WantExactly | code/mesh_neighbors.go:212-228 | wanted are exactly the compatible peers of the same network other than the access point itself, each with its last report |
| Neighbors.MutualListing | code/mesh_neighbors.go:212-228 | nodes that apply one inventory list each other or neither |
| Neighbors.Syncer.ApplyNeighbors | code/mesh_neighbors.go:193-245 | with every command accepted, each local table loses what was saved and has exactly what is wanted, and the file records it; in every case exactly the entries up to where it stopped were set, only saved ones were taken back, and a failed run leaves the file |
| Neighbors.CleanExactly | code/mesh_neighbors.go:208-244 | a run keeps the file complete exactly if it succeeded and every removal it owed was accepted, or it stopped with all it had set already saved |
| Neighbors.TidyExactly | code/mesh_neighbors.go:193-245 | over any sequence of runs, everything the plugin set is in its file after each of them if and only if each run was clean |
| Neighbors.Syncer.ApplyAll | code/mesh_neighbors.go:333-340 | any sequence of calls is such a sequence of runs |
| Neighbors.OwnedExactly | code/mesh_neighbors.go:208-238 | after a complete run the plugin's entries are exactly the wanted ones if and only if its earlier ones were saved or are still wanted |
| Neighbors.StrayStays | code/mesh_neighbors.go:229-233 | an unsaved entry stays in the table until a run sets it again |
| Neighbors.FailedRunExample | code/mesh_neighbors.go:222-226 | two runs by their contract that leave an entry behind for good |

## Left out

* HKDF, HMAC, X25519, certificates: opaque functions. HMAC has 32-byte results; that whatever verifies was
  signed, and that distinct nonces derive distinct keys, are hypotheses of `WireDisable`.
* Command execution, sockets, TLS, HTTP decoding: commands and calls that may fail; their answers are
  parameters or arbitrary values.
* Contents of nft rulesets and wpa_supplicant files, JSON of `ip` and `nft`: abstract rules and records. A
  table can be told from its listing, and a failed listing leaves no text.
* PSK contents: the WireGuard cache holds only their path, and so does the model. Its string keys are a
  datatype here.
* Unreadable configuration in API handlers: loads are taken to succeed there; the pass and the wire handler
  check, and that is modelled.
* Outside actors that re-enslave the uplink, change MTUs, or change the WAN interface during a run.
  MKA participants may create and remove MACsec devices between commands, never on a bridge.
* Devices that appear or disappear while their original MTU is recorded.
* Loss of a host route of one device to another device with the same destination.
* The guard, MTU raising, route pinning, link MTU and MSS clamp inside the leaf's pass: none of them changes
  a bridge; the first two are modules of their own, the others are not modelled.
* Whether the pairing token and the record can be read, whether a participant's process has exited, and
  whether a handshake is recent: inputs of each pass (`LeafRuntime.Outside`).
* The retry loop for pending leaves, the release call of a DELETE, status reports, OTP, SSID, device and
  station synchronisation, parent event reporting: thin forwarding around what is modelled.
* Two local access points with the same interface name: excluded by precondition.
* The loop that starts a listener and ends when the keys are gone: any number of listeners may run at any
  time.
* LeafRuntime.LeafManager.Reconcile: that the tunnel port always has its WireGuard device under it is stated
  while `faults` is empty; for exclusive bridging the condition is exact.
* WireGuard.Backhaul.CleanupMainWG: that the main router's underlay address is taken off the interfaces again
  is not modelled; nor is the same of a leaf's in `WireGuard.Backhaul.TeardownWG`.
* MtuKeeper.Keeper.Lifetime: assumes that reads and writes of the file work.
* MainTunnels.Tunnels.Run: the cache is exact over any run; that it is sound is stated for runs whose passes
  are smooth, as `PeerCache.PresentExactly` gives the exact condition otherwise. Raising the MTU of a jumbo
  leaf's interface and what leaf mode does to the same cache are not part of these passes.
* Neighbors.Syncer.ApplyNeighbors: which removals hostapd refuses is arbitrary, as the code ignores it.
