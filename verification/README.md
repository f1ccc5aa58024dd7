# softflowd, flowd and TinyXML, modelled and proved

softflowd watches traffic and exports its flows as NetFlow v9 packets; flowd collects such
packets, filters the flow records and appends them to a log; TinyXML prints and parses the
XML files of the emulator around them. This project models the code of these programs in
Dafny and proves what it is for.

Code that changes things in place is modelled in place: the trees and queues are linked
nodes whose fields the methods rewrite, buffers are arrays filled by offset, and the loops
are the loops of the source. Each such method is proved against a specification function or
a ghost shape, and the properties are proved of those.

| part | files | main results |
|---|---|---|
| Intrusive trees | `Sequences`, `RbShape`, `RbTree`, `SplayTree`, `TailQueue` | red-black insert and delete with parent links: all invariants, exactly one element more or less, height at most 2 lg (n + 1); top-down splaying refines an ordered set |
| Peer table | `Lru`, `PeerState`, `Peers`, `Nf9History`, `PeersRun` | tree and list agree; peers, sources and templates are strictly ordered by last use in every reachable state; whole runs with packets and reconfigurations |
| Addresses | `Bits`, `Bytes`, `Addr`, `AddrMatch` | `addr_cmp` is a total order; masks and CIDR matching on 32 and 128 bits |
| NetFlow v9 | `Nf9Wire`, `Nf9Export`, `Nf9Collect`, `Nf9Handlers`, `Nf9Hazards`, `Nf9RoundTrip`, `Nf9Crowding`, `Nf9Stamps`, `Nf9Session`, `Nf9Numbers` | packets of at most 512 bytes, each flow in exactly one; exactly on which packets the collector leaves its packet, divides by zero or halts; what is exported is collected, with the exact condition for single packets and for whole runs, stamped as it was sent; the bytes and the field types in numbers |
| Flow log | `FlowRecord`, `Crc32`, `Store`, `StoreRoundTrip`, `StoreWriteBack`, `StoreV2`, `StoreLayout`, `OutputLog` | round trips both ways, exactly when a record can be written, and when it is written back byte for byte, burst errors found, queue and file over all failures, upgrade from version 2; the layout of every record in numbers |
| Filter and pipeline | `Filter`, `FilterLaws`, `Pipeline` | what each criterion asks of a flow; last match wins up to a quick one; counters over whole runs; from exported flows to the bytes of the log and back |
| XML | `XmlText`, `XmlDigits`, `XmlTree`, `XmlParser`, `XmlPrinter`, `XmlReparse`, `XmlWeight`, `XmlExact`, `XmlLines` | text survives encoding if and only if "&#x" does not occur in it; what is parsed is legal up to its values; a parsed element comes back from its stream-printed form if and only if its values are such as come back; every spelling of a reference names its character; line ends |
| Privilege separation | `Privsep`, `Reconfigure` | `recv_config` undoes `send_config` exactly for the transferable configurations; monitor and client agree after every successful reconfiguration |

What crosses several programs is stated once more at the top: `Nf9Session.Session` composes
exporter and collector, and `Pipeline.ExportToLog` goes on to the log file and its reader.

`dafny verify dfyconfig.toml` checks everything.

## Where the code differs from what it says

- softflowd's templates list the last switch time before the first, but its records hold the
  first before the last (softflowd/netflow9.c:87, 126-129). The collector follows the
  template, so the two times change places: `Nf9RoundTrip.TimesArriveSwapped`.
- `store_flow_serialise` tests for the length -1 only after the test for multiples of four,
  which -1 already fails (flowd/store.c:393-399), so that test never decides
  (`StoreRoundTrip.ThirdTestNeverDecides`): fields that are not known give the internal error
  (`StoreRoundTrip.UnknownFieldIsInternal`, with `UnknownField` for an example).
- The text round trip of TinyXML fails for text with "&#x" in it, always
  (`XmlText.RoundTripExactly`, `XmlText.NoLonger`; `XmlText.Renamed` is one such text).
- Parse, print, parse is not always parse: it is exactly for the elements whose attribute
  values and texts have no "&#x" in them and whose texts have no space at an end or next to
  another, and such spaces come from references (`XmlExact.ParsedAgainExactly`).
  `<a b="&amp;#x41;"/>` comes back with the value "A" (`XmlExact.ValueNotAgain`), and the text
  of `<a>&#32;b</a>` without its space (`XmlExact.TextNotAgain`).
- An attribute value without its closing quote is read on behind the terminator, and a
  closing quote inside a numeric reference does not count
  (`XmlTree.AttributeFaults`, `XmlTree.ValueFaults`, `XmlTree.QuoteSwallowed`).
- The exporter's two templates can fail to be known together: if the collector allows one
  template for a source, or if its list is full, has no second template and holds the first
  at its end, the arrival of the second pushes out the first (`Nf9RoundTrip.LearntBoth`,
  `Nf9RoundTrip.WholePacket`, with `CrowdedOut` for an example). With room for two it is back
  with the next packet that carries the templates, and only the IPv4 flows up to there are
  lost (`Nf9Crowding.RunKept`, `Nf9Crowding.RunWhole`). Looking a template up does
  not count as a use of it, and `peer_nf9_template_update`, which would, is called nowhere.
- A flow that no flowset can hold (no octets in either direction, or an unsupported family)
  keeps `send_netflow_v9` from ending (softflowd/netflow9.c:325-329, 365).
  `Exporter.Rounds` proves that on any flows; `Exporter.Send`, which ends, is for flows with
  octets in some direction and a supported family.
- `receive_packet` passes on only packets of versions 1 and 5 (flowd/flowd.c:1262-1305);
  the NetFlow v9 part is modelled from `process_netflow_v9` on.
- `store_flow_serialise` compares the buffer with the body alone, not with header and body
  (flowd/store.c:395), and writes an address that was never copied if the flags name only the
  other form (flowd/store.c:297-387). `StoreRoundTrip.SerialiseFaultsExactly` says on which
  records, `StoreRoundTrip.OverWrite` and `StoreRoundTrip.NeverCopied` are one of each kind, and
  `StoreRoundTrip.SerialiseExactly` says what becomes of all others.
- `store_flow_deserialise` checks its buffer against the length in the header, not against
  the fields that the header names (flowd/store.c:127-180), and reads beyond it exactly as
  `StoreRoundTrip.OverReadExactly` says.
- On some packets the collector reads beyond the packet, divides by a template length of
  zero, or does not end (flowd/flowd.c:972, 1063, 1133-1196). `Nf9Hazards.StuckExactly` says on
  which, with packets of each kind as examples; `Nf9Hazards.OrderlyRuns` gives a condition that a
  caller can check, and `Nf9RoundTrip.PacketRead` shows that the exporter's packets are in
  order.

Where the C code would leave its memory, divide by zero or not end, the methods stop and say
so (`Fault`, `Crashed`, `Never`), so that each of them is specified on every input.

## Model

| member | source | states |
|---|---|---|
| RbShape.InsertStepKeeps | flowd/sys-tree.h:391-432 | one round of the insert repair (red uncle: recolour and go up; black uncle: one or two rotations) moves the only possible red-red edge strictly closer to the root and keeps equal black heights; the grandparent it reads is there |
| RbShape.SiblingThere | flowd/sys-tree.h:435-508 | on the short side of a tree that lost a black node, the sibling that the remove repair reads is never null |
| RbShape.RotateSiblingKeeps | flowd/sys-tree.h:442-446 | rotating a red sibling above the parent keeps the shortage and all balance rules, and the new sibling is black |
| RbShape.ShortParentKeeps | flowd/sys-tree.h:447-453 | with a black sibling and black nephews, painting the sibling red moves the shortage to the parent and keeps everything else in order |
| RbShape.RotateNephewKeeps | flowd/sys-tree.h:455-463 | rotating a red near nephew above the black sibling keeps the state and leaves a red far nephew |
| RbShape.FinishedKeeps | flowd/sys-tree.h:454-471 | with a red nephew one or two rotations end the shortage, and the elements keep their order |
| RbShape.SettledIsRb | flowd/sys-tree.h:464-470 | the last rotation of the remove repair restores all red-black rules |
| RbShape.BypassBalance | flowd/sys-tree.h:511-575 | taking out an element with at most one child leaves a valid tree if it was red, and a shortage of exactly one black node at its place if it was black |
| RbShape.SuccessorContents | flowd/sys-tree.h:519-558 | putting the leftmost element on the right into the place of a removed one leaves the elements in order, without the removed one |
| RbShape.HeightBound | flowd/sys-tree.h:54 | a red-black tree with n elements has height at most 2 lg (n + 1), stated as 2^height <= (n + 1)^2 |
| RbTree.Refocus | flowd/sys-tree.h:391-474 | a linked tree read from any of its nodes is the same linked tree: the climbing loops lose nothing (parent and child links agree at every node) |
| RbTree.RotatedLLinks | flowd/sys-tree.h:335-353 | the pointer writes of RB_ROTATE_LEFT turn a linked tree into the rotated linked tree, parent links included |
| RbTree.RotatedRLinks | flowd/sys-tree.h:355-373 | the same for RB_ROTATE_RIGHT |
| RbTree.Head.RotateLeft | flowd/sys-tree.h:335-353 | the rotation in place, on the tree around the rotated node, which stays linked as a whole |
| RbTree.Head.RotateRight | flowd/sys-tree.h:355-373 | the mirror image |
| RbTree.Head.InsertColour | flowd/sys-tree.h:391-432 | RB_INSERT_COLOR terminates and leaves a valid red-black tree with the same elements in the same order |
| RbTree.Head.RemoveColour | flowd/sys-tree.h:435-508 | RB_REMOVE_COLOR terminates and leaves a valid red-black tree with the same elements in the same order; the sibling it follows is never null |
| RbTree.Head.Find | flowd/sys-tree.h:609-624 | RB_FIND returns an element with the key if there is one, and null exactly if there is none |
| RbTree.Head.Insert | flowd/sys-tree.h:578-606 | RB_INSERT keeps every red-black rule and every link, adds exactly the new element at its place in the order, or returns the element already there and changes nothing |
| RbTree.Head.Remove | flowd/sys-tree.h:510-575 | RB_REMOVE keeps every red-black rule and every link, and the elements in order are the old ones without the removed one |
| RbTree.Head.Next | flowd/sys-tree.h:627-645 | RB_NEXT gives the element after the given one in order, and null after the last |
| RbTree.Head.HeightIsLogarithmic | flowd/sys-tree.h:54 | in every state that inserts and removes reach, 2^height <= (n + 1)^2 |
| SplayTree.RotRSearch | flowd/sys-tree.h:81-85 | SPLAY_ROTATE_RIGHT in the search loop keeps the elements in order and both side trees on their sides of the key |
| SplayTree.RotLSearch | flowd/sys-tree.h:87-91 | the same for SPLAY_ROTATE_LEFT |
| SplayTree.LinkLeftSearch | flowd/sys-tree.h:93-97 | SPLAY_LINKLEFT moves the root and its right side to the side tree of larger keys and keeps the order of all elements |
| SplayTree.LinkRightSearch | flowd/sys-tree.h:99-103 | the mirror image for SPLAY_LINKRIGHT |
| SplayTree.AssembledSplits | flowd/sys-tree.h:105-110 | after SPLAY_ASSEMBLE everything left of the root is below the key and everything right of it above |
| SplayTree.SplayEnds | flowd/sys-tree.h:203-235 | the whole splay gives a tree with the same elements in the same order, split at the key, with the last middle root on top |
| SplayTree.PeerTree.Search | flowd/sys-tree.h:208-233 | the loop terminates (the middle tree shrinks) with the tree taken apart at the key and no element lost |
| SplayTree.PeerTree.Assemble | flowd/sys-tree.h:105-110 | the four writes of SPLAY_ASSEMBLE link the three parts into one tree and touch nothing else |
| SplayTree.PeerTree.Splay | flowd/sys-tree.h:203-235 | top-down splaying in place: same elements, same order, every key left of the root below the target and every key right of it above |
| SplayTree.PeerTree.Find | flowd/sys-tree.h:121-130 | SPLAY_FIND returns the element with the address if there is one, null exactly if there is none, and only rearranges the tree |
| SplayTree.PeerTree.Insert | flowd/sys-tree.h:158-179 | SPLAY_INSERT adds the element at its place in the order, or returns the one already there and changes nothing but the shape |
| SplayTree.PeerTree.Remove | flowd/sys-tree.h:182-200 | SPLAY_REMOVE takes out the element with the address and no other, or says that there is none |
| SplayTree.PeerTree.DropRoot | flowd/sys-tree.h:188-196 | joining the two sides of a removed root, by splaying the left one for the key, loses no element and keeps the order |
| TailQueue.InsertLinks | flowd/sys-queue.h:342-357 | the link writes of an insertion, at any place, turn the links of a queue into those of the queue with the element at that place |
| TailQueue.RemoveLinks | flowd/sys-queue.h:376-383 | the link writes of a removal turn them into those of the queue without the element |
| TailQueue.PeerList.InsertHead | flowd/sys-queue.h:342-350 | TAILQ_INSERT_HEAD puts the element in front of the sequence that the links represent |
| TailQueue.PeerList.InsertTail | flowd/sys-queue.h:352-357 | TAILQ_INSERT_TAIL puts it at the end |
| TailQueue.PeerList.Remove | flowd/sys-queue.h:376-383 | TAILQ_REMOVE takes out that element and no other |
| TailQueue.PeerList.Last | flowd/sys-queue.h:316-318 | TAILQ_LAST, which goes back through the slot that addresses the last link, gives the last element or null |
| Lru.RunInvariant | flowd/peer.c:141-249 | in every run a bounded list has no repetitions, respects its maximum, and is strictly ordered by last use, most recent first; PeersRun.Live ties the list of peers to such a run, Nf9History.Follows the lists of sources and of templates |
| Lru.EvictsLeastRecent | flowd/peer.c:288-297 | an operation makes another entry disappear exactly when a new entry meets a full list and that other entry is the least recently used of all |
| Lru.RunIsMostRecent | flowd/peer.c:288-313 | without removals, the list is exactly the most recently used keys, as many as there is room for |
| PeerState.WithTemplateIsLru | flowd/peer.c:210-249 | creating a template is a use of its source in the peer list and of itself in the template list; counters equal list lengths, both maxima hold, and no other source changes |
| PeerState.TouchedIsLru | flowd/peer.c:142-176 | an update is a use of the source and of the template; counters are list lengths, both maxima hold, and no other source changes |
| PeerState.Peer.FindTemplate | flowd/peer.c:106-138 | peer_nf9_find_template finds the template of that number of that source, wherever it stands, or none |
| PeerState.Peer.NewSource | flowd/peer.c:180-207 | a new source heads the list; a full list gives up its last source first, and the counter follows |
| PeerState.Peer.NewTemplate | flowd/peer.c:210-249 | peer_nf9_new_template keeps all counters and maxima, and the new template is the one found under its number |
| PeerState.Peer.TemplateUpdate | flowd/peer.c:142-176 | peer_nf9_template_update, which no other function calls, moves source and template to the front of their lists in place and keeps counters and maxima |
| Nf9History.CreateFollows | flowd/peer.c:210-249 | lists that follow a history of template uses follow it with one more creation: the ids of the sources are the bounded run of all uses, the ids of each source's templates the run of the uses since that source last came in, and the counters count them |
| Nf9History.UpdateFollows | flowd/peer.c:142-176 | and so with one more update |
| Nf9History.FillFollows | flowd/flowd.c:1013-1018 | records that are written into a stored template change no list |
| Nf9History.StrictlyRecent | flowd/peer.c:141-249 | in every state that follows a history the sources, and the templates of each source, are distinct, within their maxima, counted by their counters and strictly ordered by last use |
| Nf9History.PacketFollows | flowd/flowd.c:1100-1204 | every packet, also one given up half way, takes lists that follow a history to lists that follow it with exactly the templates that the packet creates |
| Peers.Authorised | flowd/peer.c:279-286 | the search over allowed devices succeeds exactly when the list is empty or some device matches the address |
| Peers.Peers.FindPeer | flowd/peer.c:361-375 | find_peer returns the peer of that address if the table has one, and changes neither the peers nor their order |
| Peers.Peers.DeletePeer | flowd/peer.c:263-270 | delete_peer takes the peer out of the tree and the list, both or neither, and out of the count |
| Peers.Peers.NewPeer | flowd/peer.c:273-313 | new_peer admits exactly the allowed senders; at the maximum it evicts the last of the list and nothing else; tree and list hold the same peers with distinct addresses and the count is theirs |
| Peers.Peers.UpdatePeer | flowd/peer.c:343-358 | update_peer moves the peer to the front of the list and adds to its counters; no other peer changes |
| Peers.Peers.ScrubPeers | flowd/peer.c:316-340 | scrub_peers leaves exactly the allowed peers, in their order, with their templates |
| PeersRun.TableInvariant | flowd/peer.c:273-358 | in every reachable table the senders are distinct, at most max_peers, strictly ordered by last use and allowed by the configuration in force; the templates of each sender are in order, and its source and template lists are strictly ordered by last use with counters equal to their lengths |
| PeersRun.DropsRun | flowd/peer.c:316-340 | scrubbing is the removal of the senders that are not allowed, one by one |
| PeersRun.NeverStopped | flowd/flowd.c:1100-1204 | no sequence of events with packets that are in order stops the program, whatever the tables have become |
| PeersRun.Admit | flowd/flowd.c:1328-1337 | a packet that arrives: its sender is found or created blank, or the packet is dropped, exactly if the sender is unknown and not allowed; no other peer changes |
| PeersRun.Update | flowd/flowd.c:1373-1397 | a packet of a version with fixed records: a sender that was evicted while the packet waited stays out; otherwise records in it make it the most recent |
| PeersRun.OnPacket | flowd/flowd.c:1373-1407 | a NetFlow v9 packet: the table and the state of every sender are those of the history, or the program stops exactly where the history does |
| PeersRun.OnReconfigure | flowd/flowd.c:1490-1497 | scrubbing leaves the table of the history, and the state of every sender that stays |
| PeersRun.Live | flowd/peer.c:253-375 | any number of arrivals, NetFlow v9 packets with their contents, other packets and reconfigurations from an empty table: the program stops exactly at a packet that the history says stops it; otherwise peers, sources, templates and counters in memory are those of the history, and every stored template is in order |
| Addr.AddrCmp | flowd/addr.c:238-268 | for every two addresses the loop gives the first byte difference, then the order of scopes; across families IPv6 is the larger |
| Addr.CmpIsOrder | flowd/addr.c:238-268 | addr_cmp has the sign of the difference of ranks (IPv4 before IPv6, then numeric order, then scope), so it is a total order in which only equal addresses tie |
| AddrMatch.Netmask | flowd/addr.c:158-182 | addr_netmask succeeds exactly for valid lengths, word by word |
| AddrMatch.MaskIsLeadingOnes | flowd/addr.c:158-182 | a netmask of length l is the number 2^width - 2^(width - l): exactly l leading ones, on 32 and on 128 bits |
| AddrMatch.MaskedAddr | flowd/addr.c:193-213 | the bitwise and of an address with its netmask clears exactly the bits after the first l of the whole number |
| AddrMatch.NetworkPart | flowd/addr.c:453-465 | host and network agree after division by 2^(width - masklen), with zero host part, exactly when clearing the host bits gives the network |
| AddrMatch.NetmatchCmp | flowd/addr.c:453-465 | addr_netmatch is 0 exactly when the families agree, the length is valid, the scopes agree, the network parts agree, and the network has zero host bits (section 3.1 of RFC 4632) |
| Nf9Export.FlowToFlowset | softflowd/netflow9.c:175-246 | a flow is written as its one or two records, whole, or refused; nothing before the offset changes |
| Nf9Export.SetsAligned | softflowd/netflow9.c:297-352 | flowset lengths are multiples of four, so the next flowset starts aligned |
| Nf9Export.ClosedSet | softflowd/netflow9.c:343-352 | the padding and the length field complete an open flowset; the packet is then a sequence of whole flowsets again |
| Nf9Export.Yanked | softflowd/netflow9.c:325-330 | taking back the header of a flowset that got no flow leaves the packet as it was before |
| Nf9Export.PackFlows | softflowd/netflow9.c:293-352 | the inner loop puts a prefix of the remaining flows, all of it in order, into whole flowsets; it takes at least one flow exactly when the first one is exportable, which is what the outer loop needs to end |
| Nf9Export.SetsCountFits | softflowd/netflow9.c:331-353 | the record count fits its 16 bits: every record takes 31 bytes or more of the packet |
| Nf9Export.BuildPacket | softflowd/netflow9.c:270-361 | a packet of at most 512 bytes: header, optional templates and flowsets whose lengths add up to the packet, with the record count in the header |
| Nf9Export.NextRegular | softflowd/netflow9.c:282-363 | the countdown keeps this: among any 16 consecutive packets one carries both templates |
| Nf9Export.NotPast | softflowd/netflow9.c:295-365 | no packet goes past the first flow that cannot be exported |
| Nf9Export.Exporter.Rounds | softflowd/netflow9.c:270-366 | the loop for any number of rounds on any flows: it comes to the first flow that cannot be exported, stays there and sends a packet in every further round; so it ends if and only if all flows can be exported |
| Nf9Export.Exporter.Send | softflowd/netflow9.c:250-370 | send_netflow_v9 terminates on flows that can be exported; each flow goes into exactly one packet, in order; every packet, in its fields and in its bytes, is stamped with the uptime, the time at which it was made and the number of flows exported before it; the templates come regularly; -1 is returned if and only if a send failed, the one after the packets that went out, which carry a prefix of the flows |
| Nf9Export.PacketHeaded | softflowd/netflow9.c:270-281 | the header of a packet byte for byte: version 9, the number of records, uptime, time, sequence and source (section 5.1 of RFC 3954) |
| Nf9Numbers.TemplateBytes | softflowd/netflow9.c:115-172 | the bytes of the two template flowsets in numbers: eleven field types with their lengths each |
| Nf9Numbers.RecordBytes | softflowd/netflow9.c:175-247 | the bytes of a data record of either direction, field after field, with its IP version |
| Nf9Numbers.HeaderBytes | softflowd/netflow9.c:270-281 | the bytes of the header, field after field |
| Nf9Export.Exporter.ResendTemplate | softflowd/netflow9.c:372-377 | after netflow9_resend_template the next packet carries the templates |
| Nf9Collect.BeCopyBlank | flowd/flowd.c:781-787 | BE_COPY of up to size bytes into a blank field stores the big-endian number that they hold |
| Nf9Collect.DecodeKeepsNumbers | flowd/flowd.c:775-911 | decoding by any stored template keeps the big-endian value of each integer field that only one record fills, at any length that nf9_check_rec_len admits |
| Nf9Collect.DecodeReads | flowd/flowd.c:878-911 | decoding a record consumes exactly the bytes that the template describes |
| Nf9Numbers.LengthsAdmitted | flowd/flowd.c:831-875 | the lengths that a field may have, for each type by its number |
| Nf9Numbers.RecordFills | flowd/flowd.c:775-828 | what each type of field does to the record, by its number: which flag it sets, which field it fills, whose other bytes stay, and that nothing else changes |
| Nf9Numbers.WholeAddress | flowd/flowd.c:784-788 | an address of full length that was copied in is the address that its bytes name |
| Nf9Collect.RecordsRead | flowd/flowd.c:960-1005 | a template that is accepted has the announced number of records, each fitting its field, and a total that is their sum and within the maximum |
| Nf9Collect.StoreTemplateKeeps | flowd/flowd.c:1007-1018 | storing it, over an old template or as a new one, keeps every template of every source in order |
| Nf9Collect.TemplatesKeep | flowd/flowd.c:915-1022 | a template flowset, even one given up half way, keeps every stored template in order: total_len is the sum of the record lengths and at most max_template_len |
| Nf9Collect.OneSetKeeps | flowd/flowd.c:1164-1192 | every flowset of any type keeps every stored template in order, whatever its outcome |
| Nf9Handlers.TakeRecords | flowd/flowd.c:960-1005 | the inner loop of process_netflow_v9_template on every flowset: the records, the rejection, or the read beyond the packet |
| Nf9Handlers.ProcessTemplate | flowd/flowd.c:915-1022 | process_netflow_v9_template on every flowset: peer state and outcome, or that it reads beyond the packet |
| Nf9Handlers.FlowsetToStore | flowd/flowd.c:878-912 | nf9_flowset_to_store fills the record by the template, from blank |
| Nf9Handlers.ProcessData | flowd/flowd.c:1025-1097 | process_netflow_v9_data on every flowset: no flow is passed on unless the whole flowset decodes; a missing template is counted and skipped; a template without records is divided by |
| Nf9Handlers.ProcessSets | flowd/flowd.c:1131-1199 | the loop over flowsets on every packet: state, flows, and whether the packet was read to its end, given up, or never left; in the last case too the flows are those handed on by then |
| Nf9Handlers.ProcessPacket | flowd/flowd.c:1100-1204 | process_netflow_v9 on the peer table, for every packet, one never left included: state and flows are those of the reading, every stored template stays in order, and only a packet read to its end with flows in it moves the peer to the front |
| Nf9Stamps.RecordsStamped | flowd/flowd.c:889-899 | every record that comes out of a packet, by whatever templates, says of the packet what the bytes of its header say, when it was received and from whom |
| Nf9Hazards.RecordsExactly | flowd/flowd.c:960-1005 | the loop over a template's records reads beyond the packet if and only if after some acceptable ones the next begins inside the flowset and the packet's end cuts it, and gets through if and only if all are there, inside and acceptable |
| Nf9Hazards.TemplatesExactly | flowd/flowd.c:946-1019 | so does the loop over templates, if and only if it comes to one whose header or records the packet's end cuts |
| Nf9Hazards.SetExactly | flowd/flowd.c:1024-1070 | when a flowset of each kind does harm: a cut template, or a data flowset whose template has no records |
| Nf9Hazards.StuckExactly | flowd/flowd.c:1128-1195 | the collector leaves its packet, divides by zero or makes no progress if and only if it comes to a cut flowset header, an options or reserved flowset of length zero, a cut template, or a data flowset whose stored template has no records |
| Nf9Hazards.StuckFlows | flowd/flowd.c:1128-1195 | by then it has handed on exactly the flows of the flowsets before the harmful one |
| Nf9Hazards.OrderlyRuns | flowd/flowd.c:1100-1204 | what a caller can check: if every flowset covers its header, every template has a record and lies in its flowset, and no stored template is empty, the packet is read in order and no stored template is empty afterwards |
| Nf9Hazards.BytesLeft | flowd/flowd.c:1133-1145 | such a packet: two bytes are left behind the last flowset |
| Nf9Hazards.LengthZero | flowd/flowd.c:1194-1196 | such a packet: an options flowset of length zero |
| Nf9Hazards.CountZeroStored | flowd/flowd.c:949-1018 | a template with count zero is stored as one without records |
| Nf9Hazards.NoRecordsStored | flowd/flowd.c:1062-1063 | and a data flowset of its number is such a packet |
| Nf9Hazards.RecordCut | flowd/flowd.c:962-976 | such a packet: a template record is cut |
| Nf9RoundTrip.RecordDecoded | softflowd/netflow9.c:84-98 | a data record of either family, decoded by softflowd's own template, is the flow record of its direction |
| Nf9RoundTrip.TimesArriveSwapped | softflowd/netflow9.c:87-129 | decoding an exported record by its own template gives the first switch time where the last was sent and the other way round, because the template lists LAST before FIRST and the record stores first before last; they arrive as sent if and only if they are equal |
| Nf9RoundTrip.BodyDecoded | softflowd/netflow9.c:175-246 | the records of a run of flows decode in order, one for each direction with octets |
| Nf9RoundTrip.RecordsComeOut | flowd/flowd.c:1062-1089 | padding is never taken for a record: a data flowset gives as many records as went in |
| Nf9RoundTrip.TemplateRead | flowd/flowd.c:915-1022 | the collector stores each of the exporter's templates as it was meant |
| Nf9RoundTrip.OtherKept | flowd/peer.c:210-249 | a template that arrives pushes out another one only from the last place of a full list, and only if it is new itself |
| Nf9RoundTrip.LearntBoth | flowd/flowd.c:915-1022 | after a packet with both templates the second is known, and the first too exactly unless it was crowded out by the second |
| Nf9RoundTrip.CrowdedOut | flowd/peer.c:210-249 | one list of two templates in which the arrival of both loses the first |
| Nf9RoundTrip.LearntOnce | flowd/flowd.c:1007-1018 | once both are known, receiving them again changes nothing |
| Nf9RoundTrip.PacketRead | flowd/flowd.c:1100-1199 | every packet of the exporter is read to its end: flowsets with a known template give their flows, every other one is counted as missing its template |
| Nf9RoundTrip.WholePacket | flowd/flowd.c:1100-1199 | for a collector in any state, a packet that carries the templates comes through whole if and only if the templates are not crowded out, or no flow in it needs the lost one |
| Nf9RoundTrip.ExportIsCollected | flowd/flowd.c:1100-1204 | any run of packets that starts with the templates is collected completely and in order |
| Nf9Crowding.NextTime | flowd/peer.c:210-249 | once both templates have arrived, the next arrival of both crowds none out if and only if the list has room for more than one |
| Nf9Crowding.RunKept | flowd/flowd.c:1100-1204 | a run that starts with the templates, into a collector in any state: it is read to its end, and every flow arrives in order but the IPv4 flows of the packets before the second one with templates if the IPv4 template was crowded out by the first, or all IPv4 flows if the list has room for one template only |
| Nf9Crowding.RunWhole | flowd/flowd.c:1100-1204 | such a run arrives whole if and only if no packet in it carries an IPv4 flow while that template is crowded out |
| Nf9RoundTrip.RunTraffic | softflowd/netflow9.c:250-370 | what is collected of a run says of addresses, ports, protocol, flags, octets and packets exactly what the flows say, one entry for each direction with octets; counts modulo 2^32 |
| Nf9RoundTrip.RunPlain | flowd/flowd.c:888-899 | every collected record has both addresses of one family, with their flags, and the common fields |
| Nf9RoundTrip.RunCollected | flowd/flowd.c:1100-1204 | the two together, for every successful run of the exporter |
| Nf9Stamps.RunStamped | flowd/flowd.c:889-899 | the records of a run of packets say, packet after packet, the uptime, the time and the number of flows exported before |
| Nf9Session.Session | softflowd/netflow9.c:250-370 | exporter and collector composed, whichever sends succeed: the records that come out describe exactly the traffic of the flows carried, in order, and each says the uptime, the time and the number of flows exported before that its packet was stamped with; all flows are carried, or after a failed send those before it (sections 5.1, 5.2, 5.3 and 7 of RFC 3954) |
| Crc32.TableIsDivision | flowd/crc32.c:33-98 | each of the 256 table entries is eight steps of bit-at-a-time division of its index |
| Crc32.Update | flowd/crc32.c:107-116 | the table-driven loop computes the bit-at-a-time register |
| Crc32.CrcIsRemainder | flowd/crc32.c:100-126 | the checksum of a message is the remainder of its bits, each byte's low bit first, followed by 32 zeros, on schoolbook division by the polynomial of section 3.2.9 of IEEE 802.3 |
| Crc32.PolyIsGenerator | flowd/crc32.c:33-98 | the constant behind the table is that polynomial without its leading term, reflected |
| Crc32.CrcConcat | flowd/crc32.c:107-116 | the checksum composes over concatenation, so it may be computed field by field |
| Crc32.CrcLinear | flowd/crc32.c:107-116 | it is linear under exclusive or, in register and message |
| Crc32.CrcInjective | flowd/crc32.c:107-116 | for every message, it maps registers one to one |
| Crc32.BurstFound | flowd/crc32.c:118-126 | two messages of equal length that differ, and only within four consecutive bytes, have different registers at the end |
| Crc32.ChecksumBurst | flowd/crc32.c:118-126 | and different checksums |
| Store.FieldsWord | flowd/store.h:76-99 | the field word determines the set of fields |
| Store.WordFields | flowd/store.h:76-99 | and the set of fields the word |
| Store.LengthFits | flowd/store.c:59-97 | the body of every record is a multiple of four long and its length in words fits the byte len_words |
| Store.Serialise | flowd/store.c:278-449 | store_flow_serialise for every record and buffer: the bytes, the changed header, the error with the buffer unchanged, or that it would write beyond the buffer or from an address that was never copied |
| Store.SerialiseMasked | flowd/store.c:490-504 | store_flow_serialise_masked gives the caller its field word back in every case |
| StoreLayout.RecordLaid | flowd/store.h:64-99 | a record of the log in numbers, for every set of fields: version byte 0x60, length in words, two zero bytes, the field word, the fields in the order of their bits, big-endian, and the checksum |
| StoreLayout.WrittenLaid | flowd/store.c:392-445 | that is what the serialiser writes, and it leaves out no field but a spare form of an address |
| StoreLayout.OneFieldLaid | flowd/store.h:64-99 | a record with one field, for each of the nineteen: its length, its field word and its bytes as literals |
| StoreLayout.OneFieldWritten | flowd/store.c:392-445 | and what the serialiser writes of it |
| StoreLayout.ChecksumLaid | flowd/store.h:97-100 | a record with nothing but its checksum |
| Store.Deserialise | flowd/store.c:100-221 | for every buffer the record, or the error that the header, the fields, the address forms or the checksum call for, or that it would read beyond the buffer |
| StoreLayout.ReadLaid | flowd/store.c:127-180 | what was read from any record, in the same numbers: the flags are the bits of the word, and the values of the fields that they name are the bytes behind it in the order of the bits |
| StoreLayout.RestBlank | flowd/store.c:112-212 | the checksum is read from behind the fields, every other value is zero, and each address has the family of its flag |
| StoreLayout.Outcome3 | flowd/store.c:112-212 | what becomes of every buffer whose flags are known, in numbers: each error in the order of the source, the read beyond the buffer, or the record |
| StoreLayout.OutcomeUnknown | flowd/store.c:174-212 | and of every buffer with a flag that is not known: only a later minor version may have one, and its checksum is the last word that the header counts |
| Store.ResolveIs | flowd/store.c:295-387 | which form of an address is written: with sound flags the one for its family; otherwise an error, or a flag left for a form that the address does not have |
| StoreRoundTrip.WritableExactly | flowd/store.c:278-449 | a record is written without an error or a bad read if and only if the flags of each address include the one its family names or neither, all fields are known, and the buffer holds header and body |
| StoreRoundTrip.SerialiseExactly | flowd/store.c:278-449 | what becomes of every record in every buffer, by its flags, families and the size: which error in the order of the source, a fault, or the bytes |
| StoreRoundTrip.SerialiseFaultsExactly | flowd/store.c:297-449 | it writes beyond the buffer, or from an address never copied, if and only if no flagged address lacks a family, all fields are known and the body fits, and the header does not fit too or some address is flagged only in the form that its family does not name |
| StoreRoundTrip.OverWrite | flowd/store.c:395-402 | one such call: a record with a tag into four bytes |
| StoreRoundTrip.NeverCopied | flowd/store.c:297-387 | another: an IPv4 source of which only the IPv6 form is flagged |
| StoreRoundTrip.ThirdTestNeverDecides | flowd/store.c:392-399 | the three tests of the length: -1 is no multiple of four, and a length that is one belongs to known fields and is not negative, so the test for -1 never decides |
| StoreRoundTrip.UnknownFieldIsInternal | flowd/store.c:392-399 | the internal error is given exactly for a field that the log does not know where no address stands in the way, and the error for invalid flows, which the test for -1 is there to give, exactly for addresses without a family |
| StoreRoundTrip.UnknownField | flowd/store.c:392-399 | one such record |
| StoreRoundTrip.OverReadExactly | flowd/store.c:117-180 | the deserialiser reads beyond the buffer if and only if it accepts the header and the fields that it names, the checksum among them if all are known, take more bytes than follow the header |
| StoreRoundTrip.OverRead | flowd/store.c:117-180 | one such buffer: the header of a record with a tag, and nothing behind it |
| StoreRoundTrip.FieldRoundTrip | flowd/store.c:409-441 | the memory of each field read back is the field |
| StoreRoundTrip.RecordRoundTrip | flowd/store.c:100-221 | a record that is written reads back as exactly its selected fields, with zeros elsewhere |
| StoreRoundTrip.SerialiseRoundTrip | flowd/store.c:490-504 | deserialise(serialise_masked(f)) gives exactly the selected fields of f, one form of each address, for every record with sound flags, every mask and every buffer with room |
| StoreRoundTrip.CorruptionFound | flowd/store.c:214-215 | a record in which up to four consecutive bytes changed, without changing its shape, is refused with the checksum error |
| StoreRoundTrip.ChecksumCorruptionFound | flowd/store.c:214-215 | so is one whose checksum alone changed, in any way |
| StoreRoundTrip.LogReadsBack | flowd/store.c:224-247 | a log of any number of records reads back as the same sequence, up to the end of the file |
| StoreRoundTrip.CutLogReadsBack | flowd/store.c:224-247 | a log cut anywhere in its last record still gives every record before it |
| StoreWriteBack.FieldWritesBack | flowd/store.c:136-166 | what was read into a field is written from it, byte for byte |
| StoreWriteBack.BodyWritesBack | flowd/store.c:136-166 | the body of a record that was read is the bytes that it was read from |
| StoreWriteBack.ReadIsSound | flowd/store.c:182-212 | every record that was read can be written, with the same fields |
| StoreWriteBack.WritesBack | flowd/store.c:278-449 | for every record that reads without an error, serialise(deserialise(b)) == b if and only if it has this version's header, zero reserved bytes and a matching length included, and nothing behind it; padding comes back as it was |
| StoreV2.Deserialise2 | flowd/store-v2.c:108-232 | for every buffer with a header: the record, or the error for unknown fields, a short buffer, two forms of one address, or a wrong checksum, in this order |
| StoreV2.Convert | flowd/store-v2.c:510-557 | store_v2_flow_convert succeeds exactly for known fields |
| StoreV2.SetConverted | flowd/store-v2.c:510-557 | field by field, converting is widening: narrow interface, AS and engine numbers stay the same numbers, recv_usec and source_id become zero |
| StoreV2.UpgradeKeeps | flowd/store-v2.c:510-557 | every version 2 record that reads without an error can be written as version 3 with the same fields; the body is the widened old body, and the record reads back with every value it held |
| StoreLayout.Read2Laid | flowd/store-v2.c:138-200 | a converted version 2 record in numbers: the flags are the bits of the first word, and each field that it names is the bytes at its place, widened |
| StoreLayout.Outcome2 | flowd/store-v2.c:138-232 | what becomes of every version 2 buffer with a word of flags: unknown flags, too short, two forms of one address, a wrong checksum, or the record |
| OutputLog.LogFile.Atomicio | flowd/atomicio.c:42-61 | over any run of interrupted and short writes a prefix of the buffer reaches the file, all of it exactly if the full length is returned; that is so if no write fails or takes nothing, and otherwise the first that does decides the result |
| OutputLog.LogFile.PutBuf | flowd/store.c:452-487 | all of the buffer is in the file, or nothing, or the error is the corrupting one and part of the buffer is; that needs a pipe or a failed rewind, and is certain with one once a write stopped; if no write fails or takes nothing, all of it is in the file |
| OutputLog.OutputQueue.Enqueue | flowd/flowd.c:159-211 | the queue gets the whole record or stays as it was; offset <= allocation <= 512 KB; it is full only without room below the maximum or after a refused allocation |
| OutputLog.OutputQueue.Grow | flowd/flowd.c:179-202 | the doubling loop stays within the maximum: its "oops" branch is never reached |
| OutputLog.OutputQueue.Flush | flowd/flowd.c:214-234 | a flush moves all waiting bytes to the file, or leaves file and queue as they were, except for the corrupting error |
| OutputLog.OutputQueue.EnqueueAfterFlush | flowd/flowd.c:410-417 | after a flush there is room for any record that fits the initial queue, whatever memory is refused |
| OutputLog.Log.Flush | flowd/flowd.c:214-234 | over the life of the log: file and queue together are all accepted records in order, and the file holds only whole records, unless the corrupting error ended the program; with healthy writes it does not end |
| OutputLog.Log.Accept | flowd/flowd.c:410-417 | a record is accepted, at the second attempt if need be, or the program ends, which it does not with memory and healthy writes; the same invariant holds |
| OutputLog.LogPrefix | flowd/store.c:224-247 | any first part of a log reads back as the whole records in it |
| OutputLog.LogIsReadable | flowd/flowd.c:159-234 | whatever happened to a log, its file reads back as a prefix of the accepted records that includes all flushed ones, and exactly those unless the error was the corrupting one |
| Filter.FlowMatch | flowd/filter.c:212-306 | flow_match holds exactly if the flow meets every criterion that the rule has, or fails it where the rule negates it |
| FilterLaws.OneByOne | flowd/filter.c:212-299 | a rule with several criteria matches exactly what all the rules with one of them match |
| FilterLaws.OneCriterion | flowd/filter.c:218-221 | a negated criterion matches exactly what it would not match otherwise |
| FilterLaws.DaytimeAsks | flowd/filter.c:191-210 | by day and time of day exactly the seconds from one bound to the other match, on the days of the mask; none if the bounds are crossed |
| FilterLaws.WiderDaytime | flowd/filter.c:191-210 | more days or a wider window never lose a match, whatever the other criteria; negated they never gain one |
| FilterLaws.EarlyMorning | flowd/filter.c:191-210 | one window, at a time inside and a time outside |
| FilterLaws.AbstimeAsks | flowd/filter.c:291-298 | by absolute time exactly the times strictly between the bounds match, if there are bounds |
| FilterLaws.AddressesAsk | flowd/filter.c:223-256 | agent, source and destination are each asked for their own network: the same family and scope, the same first bits, and nothing behind them in the network |
| FilterLaws.ShorterMask | flowd/filter.c:223-256 | networks nest: a shorter mask on the same bits holds every address that the longer one holds |
| FilterLaws.NumbersAsk | flowd/filter.c:258-276 | ports, protocol and type of service are asked for equality, each of its own field |
| FilterLaws.FamilyAsks | flowd/filter.c:240-244 | the family is asked of source or destination |
| FilterLaws.InterfacesAsk | flowd/filter.c:230-238 | an interface matches up to multiples of 2^32, and so exactly for a rule that is no negative number |
| FilterLaws.FlagsAsk | flowd/filter.c:278-282 | the TCP flags are asked bit by bit: those under the mask are the wanted ones and none is wanted outside it |
| Filter.WinnerIs | flowd/filter.c:309-351 | exactly one rule decides, the last match up to the first quick match; some rule does exactly if any rule matches at all |
| Filter.QuickDecides | flowd/filter.c:317-332 | a quick rule that matches keeps every later rule out of the decision and from being tried |
| Filter.CountersOrdered | flowd/filter.c:309-351 | over every run of flows wins <= matches <= evaluations for each rule, and evaluations never increase along the list |
| Filter.WinsAreMatches | flowd/filter.c:309-351 | over every run the wins of all rules together are the number of flows that some rule matched |
| Filter.TryRules | flowd/filter.c:316-332 | the loop finds the deciding rule and bumps exactly the counters of the rules that it tried |
| Filter.FilterFlow | flowd/filter.c:309-351 | filter_flow: the verdict (accept without a match), the tag, and counters that are those of the whole past plus this flow |
| Pipeline.PacketsStorable | flowd/flowd.c:775-1199 | every record that comes out of any NetFlow v9 packet, by any template, and also before a harmful flowset, has sound address flags and known fields, so it can be written to the log |
| Pipeline.StoreFlowRecord | flowd/flowd.c:406-417 | the end of process_flow never meets a serialising error with such records |
| Pipeline.ProcessFlow | flowd/flowd.c:351-441 | process_flow: a flow with mixed families or a discarded one adds nothing; every other one adds one record, with the tag and the configured fields |
| Pipeline.ProcessFlows | flowd/flowd.c:1091-1092 | the flows of a packet reach the log in order, and the filter's counters are those of all flows |
| Pipeline.LoggedTraffic | flowd/flowd.c:406-417 | a logged record read back says of its traffic what the collected one said |
| Pipeline.FilteredTraffic | flowd/filter.c:334-344 | a record that passes, tagged or not, has the traffic it had |
| Pipeline.NoneDropped | flowd/flowd.c:403-404 | if the rules discard none of the records, all are logged |
| Pipeline.AllLoggedTraffic | flowd/flowd.c:351-441 | under any rules the log describes the traffic of exactly the records that the filter does not discard, in their order |
| Pipeline.ExportToLog | flowd/flowd.c:351-441 | from softflowd's flows to the bytes of flowd's log file, under any rules: whichever sends succeed, the collected records have exactly the traffic of the flows carried, reading the log gives the traffic of those that are not discarded and then the end of the file, and all of it if none is |
| XmlText.EncodeString | NSP/tinyxml.cpp:51-132 | EncodeString appends the encoded text; its pass-through of hexadecimal references stops at the semicolon or one character before the end |
| XmlText.PassThrough | NSP/tinyxml.cpp:74-80 | the inner loop copies as far as the specification says |
| XmlText.CharRead | NSP/tinyxmlparser.cpp:438-531 | every character, control characters and non-ASCII ones included, is read back from its encoded form whatever follows |
| XmlText.NoLonger | NSP/tinyxml.cpp:51-132 | text with something like a hexadecimal reference in it comes back shorter, or not at all |
| XmlText.Renamed | NSP/tinyxml.cpp:59-81 | one such text, "&#x41;", comes back as the letter that it names |
| XmlText.RoundTripExactly | NSP/tinyxml.cpp:51-132 | decoding the encoded text gives the text back if and only if "&#x" does not occur in it (section 4.1 and 4.6 of XML 1.0) |
| XmlDigits.HexReference | NSP/tinyxmlparser.cpp:438-512 | a hexadecimal reference gives the character of its number, for every spelling: upper-case, lower-case or mixed digits and any number of zeros, whatever follows |
| XmlDigits.DecimalReference | NSP/tinyxmlparser.cpp:438-512 | so does a decimal reference |
| XmlDigits.Named | NSP/tinyxmlparser.cpp:438-512 | every character is read from the digits of its number that are printed in either base and case |
| XmlDigits.BadReference | NSP/tinyxmlparser.cpp:456-505 | a reference with a character that is no digit cannot be read |
| XmlDigits.NamedEntity | NSP/tinyxmlparser.cpp:514-528 | the five entities are written and read by their names |
| XmlDigits.OtherWritten | NSP/tinyxml.cpp:106-131 | other characters are written as they are, control characters in two upper-case hexadecimal digits |
| XmlDigits.Classes | NSP/tinyxmlparser.cpp:401-436 | which characters are white space, may stand in a name, and may begin one |
| XmlDigits.BareRead | NSP/tinyxmlparser.cpp:1442-1463 | an attribute value without quotes is read as it stands up to the first white space, slash or greater-than sign, and is an error with a quote in it |
| XmlDigits.SmallPrinted | NSP/tinyxml.cpp:1768-1856 | the printed form of one element with an attribute and text, character by character |
| XmlDigits.EmptyPrinted | NSP/tinyxml.cpp:1768-1856 | and of one without children, with a quote in its value |
| XmlTree.KeepRead | NSP/tinyxmlparser.cpp:581-637 | a quoted attribute value reads back with all its white space |
| XmlTree.TextParsed | NSP/tinyxmlparser.cpp:1498-1546 | text that white-space condensing leaves alone reads back, up to the tag behind it |
| XmlTree.AttrParsed | NSP/tinyxmlparser.cpp:1389-1464 | an attribute reads back from its printed form |
| XmlTree.KeepPastExactly | NSP/tinyxmlparser.cpp:581-637 | reading a quoted value runs behind the terminator if and only if every piece (a character or a reference) can be read and none of them begins with the quote |
| XmlTree.AttributeFaults | NSP/tinyxmlparser.cpp:1389-1464 | an attribute is read beyond the terminator if and only if it has a name, an equals sign and an opening quote, and what follows is such a value |
| XmlTree.ValueFaults | NSP/tinyxmlparser.cpp:581-637 | without numeric references that is the case if and only if the closing quote is missing |
| XmlTree.QuoteSwallowed | NSP/tinyxmlparser.cpp:456-477 | with them it is not: in one value the closing quote stands inside a reference, whose digits are read back only as far as the last x, and the value runs behind the terminator |
| XmlTree.AttrsParsed | NSP/tinyxmlparser.cpp:1090-1172 | so does a list of attributes with distinct names |
| XmlTree.ElementParsed | NSP/tinyxmlparser.cpp:1049-1174 | for every legal element tree, parsing the stream-printed form gives the same tree and stops right behind it |
| XmlTree.ChildrenParsed | NSP/tinyxmlparser.cpp:1177-1246 | and so for a list of children, up to the end tag |
| XmlReparse.ElementShaped | NSP/tinyxmlparser.cpp:1049-1246 | whatever text is parsed as an element: its names are names, its attributes distinct, its texts neither blank nor next to each other, at every depth |
| XmlReparse.ParsedAgain | NSP/tinyxmlparser.cpp:1049-1246 | parse, print, parse is parse for every text that is parsed as an element whose values are such as come back, and the element is legal; the other direction is XmlExact.ParsedAgainExactly |
| XmlReparse.NotAgain | NSP/tinyxml.cpp:59-81 | the step behind XmlExact.ValueNotAgain: the value parsed from "&amp;#x41;" in quotes, encoded and parsed once more in quotes, is the letter A |
| XmlReparse.PlainParsedAgain | NSP/tinyxmlparser.cpp:1049-1246 | and for every text without an ampersand that is parsed as an element, without any condition on values |
| XmlWeight.PrintWeight | NSP/tinyxml.cpp:51-132 | the printed form of a shaped tree has as many number signs and control characters as the values of the tree |
| XmlWeight.ElementWeight | NSP/tinyxmlparser.cpp:1049-1246 | parsing any text as an element never adds to them: those of the values parsed and of the text left are no more than those of the text |
| XmlWeight.NumericWeight | NSP/tinyxmlparser.cpp:438-531 | and a numeric reference takes a number sign away |
| XmlExact.ValueExactly | NSP/tinyxmlparser.cpp:581-637 | a printed attribute value is read back as it was, in either kind of quotes and whatever follows, if and only if "&#x" does not occur in it |
| XmlExact.TextExactly | NSP/tinyxmlparser.cpp:1498-1546 | text that is not blank and does not begin with a space is read back as it was, up to the tag behind it, if and only if "&#x" does not occur in it and no space stands at its end or next to another |
| XmlExact.ElementTight | NSP/tinyxmlparser.cpp:1049-1246 | a printed element that comes back equal with any text left: a value that is not faithfully printed costs a number sign that nothing behind it gives back, or all values are faithful and exactly the text behind is left |
| XmlExact.ElementExactly | NSP/tinyxmlparser.cpp:1049-1174 | for every printable element of the shape that parsed ones have, and any text behind it, print and parse give the element and leave that text if and only if its values are such as come back |
| XmlExact.DocumentExactly | NSP/tinyxmlparser.cpp:704-796 | the same for a document with this one node |
| XmlExact.ParsedAgainExactly | NSP/tinyxmlparser.cpp:1049-1246 | so for every text that is parsed as a printable element, printing and parsing once more give the same element if and only if its values are such as come back |
| XmlExact.ValueNotAgain | NSP/tinyxml.cpp:59-81 | an element that does not come back: the one parsed from `<a b="&amp;#x41;"/>` prints as one that is parsed with the value A |
| XmlExact.TextNotAgain | NSP/tinyxmlparser.cpp:581-637 | another: the text " b" that is parsed from `<a>&#32;b</a>` is printed with its space, which is then skipped |
| XmlParser.SkipWhiteSpace | NSP/tinyxmlparser.cpp:314-362 | the loop leaves exactly the rest that begins with the first character that is no white space |
| XmlParser.ReadNameAt | NSP/tinyxmlparser.cpp:401-436 | the loop of ReadName takes the longest name |
| XmlParser.CharRefAt | NSP/tinyxmlparser.cpp:445-512 | the digit loop, with its 32-bit multiplier and 64-bit sum, yields the byte that the reference names (modulo 256) however long the reference is |
| XmlParser.GetEntityAt | NSP/tinyxmlparser.cpp:438-531 | numeric references, the five named entities in table order, and the lost ampersand of an unknown one, on every string |
| XmlParser.ReadKeepAt | NSP/tinyxmlparser.cpp:581-637 | the first loop of ReadText collects every decoded character up to the end tag and steps behind it, or one behind the terminator if there is none |
| XmlParser.ReadTrimAt | NSP/tinyxmlparser.cpp:596-637 | the second loop puts one space for each run of white space before a character and none for one at the end, on every string |
| XmlParser.ParseTextAt | NSP/tinyxmlparser.cpp:1498-1546 | text is read as far as the next tag, which is left in place |
| XmlParser.ParseAttributeAt | NSP/tinyxmlparser.cpp:1389-1464 | name, equals sign and value, in either kind of quotes or bare, with every way in which it fails |
| XmlParser.ParseElementAt | NSP/tinyxmlparser.cpp:1049-1174 | the loop over attributes, empty tags, children and end tag gives the element, or the error exit, that the reading functions of the round trip give, on every string |
| XmlParser.ReadChildrenAt | NSP/tinyxmlparser.cpp:1177-1246 | the loop over text and elements gives the children in order and stops at the end tag, on every string |
| XmlPrinter.PrintAttribute | NSP/tinyxml.cpp:1214-1237 | double quotes unless the value has one, single quotes otherwise; for every value, encoded |
| XmlPrinter.Printer.VisitEnter | NSP/tinyxml.cpp:1768-1802 | exactly the start tag, with the empty form for an element without children, is appended, in stream mode and with indentation and line breaks; depth and the one-line state follow |
| XmlPrinter.Printer.VisitExit | NSP/tinyxml.cpp:1805-1828 | exactly the end tag is appended, in either mode, nothing for an element without children; depth and the one-line state are undone |
| XmlPrinter.Printer.VisitText | NSP/tinyxml.cpp:1831-1856 | exactly the encoded text is appended, on a line of its own unless the element is printed on one line |
| XmlPrinter.Printer.Accept | NSP/tinyxml.cpp:846-857 | walking any tree whose values have no terminator in them, in stream mode, appends its printed form and leaves the printer's state as it was |
| XmlPrinter.DocumentRoundTrip | NSP/tinyxmlparser.cpp:704-796 | a legal tree printed in stream form and parsed as a document is the document's one node, and no text is left |
| XmlLines.NormaliseLines | NSP/tinyxml.cpp:1033-1075 | the loop, which copies text between line ends in one piece, gives the text with every CR LF, CR and LF made one LF |
| XmlLines.LinesNormal | NSP/tinyxml.cpp:1033-1075 | no carriage return is left, there are as many line ends as before, and nothing else changed (section 2.11 of XML 1.0) |
| XmlLines.NormalTwice | NSP/tinyxml.cpp:1033-1075 | a second pass changes nothing |
| Privsep.ListensThrough | flowd/privsep.c:342-364 | any list of listeners reads back in order, descriptors included |
| Privsep.RulesThrough | flowd/privsep.c:366-386 | any list of rules reads back in order |
| Privsep.ReceivedSent | flowd/privsep.c:295-545 | recv_config undoes send_config exactly for the configurations with a pid file, strings that are not empty and shorter than 8192, 1 to 8192 listeners and at most 2^20 entries in each other list; any other one is not received at all |
| Privsep.Config.Replace | flowd/privsep.c:236-292 | replace_conf moves scalars and lists over, each list in its order, and leaves the source empty |
| Privsep.Config.Send | flowd/privsep.c:437-545 | send_config writes exactly the specified items, as far as a string that it refuses |
| Privsep.Config.Receive | flowd/privsep.c:295-435 | recv_config: the configuration becomes what was received, or stays as it was |
| Privsep.Channel.NextString | flowd/privsep.c:55-79 | privsep_read_string, with its two ways to end the process |
| Reconfigure.ChildGetConfig | flowd/privsep.c:604-699 | the parser process and the monitor: the monitor has the file's configuration if it parses and can be sent, and its old one otherwise |
| Reconfigure.ReadConfig | flowd/privsep.c:701-718 | the command-line option bits survive |
| Reconfigure.AnswerReconfigure | flowd/privsep.c:868-931 | the monitor replaces its configuration exactly if the file parses, can be sent and every listener opens; only then the client is told to take it over, and gets it with the open descriptors |
| Reconfigure.TakeOver | flowd/privsep.c:776-790 | the client takes over what the monitor sent after a positive answer, and keeps its own otherwise |
| Reconfigure.System.Reconfigure | flowd/privsep.c:757-931 | one reconfiguration: both processes go on, with the same configuration apart from descriptors and counters, exactly if it succeeds; otherwise both end |
| Reconfigure.System.Filter | flowd/filter.c:309-351 | filtering between reconfigurations changes the counters of the client's rules and nothing else, so it does not part the two configurations |
| Reconfigure.OptionsKept | flowd/privsep.c:701-718 | after any number of successful reconfigurations the configuration is the last file's, with its lists in file order; a command-line option ever set stays set, and all other bits are the last file's |
| Reconfigure.OptionsByName | flowd/privsep.c:705-712 | by name: not forking, verbose and insecure stay set once they are, and any other option is as the last file says |
| Reconfigure.Life | flowd/privsep.c:757-931 | whole runs from the fork on: as long as both processes run they hold the same configuration, the one that the specification of the run gives |

## Left out

- Sockets, polling, signals, forks, descriptors and files: the answers of the operating system (short writes, refused memory, clocks, time zones, which sends and opens succeed) are parameters.
- Nf9 sources and templates as linked nodes: the lists inside a peer are sequences that its methods reassign; the tail queue itself is proved on links, for the list of peers.
- TinyXML child lists as linked nodes: children are a sequence; LinkEndChild appears as appending to it, and insert, replace and remove are not modelled.
- The byte order of fields inside the programs: numbers are numbers, and bytes appear where they are written or read.
- 64-bit wrap-around of counters (peer counters, rule counters, exported flows).
- Exporter.Send: is for flows that can be exported, because the loop of the source does not end on others; those are the subject of Exporter.Rounds.
- XmlParser.ReadKeepAt: has end tags of one character, which is what attribute values end with; longer ones belong to CDATA sections and comments.
- XmlParser.ReadTrimAt: has end tags of one character, likewise.
- SPLAY_NEXT, SPLAY_MINMAX and RB_MINMAX: walks to a neighbour or an end of a tree, for listings and for the expiry of flows; what insert, find and remove keep does not depend on them.
- addr_or, addr_invert, addr_hostmask and the tests and fills of host parts: outside flowd/addr.c only the configuration grammar calls one of them, to refuse a network with host bits; matching rests on addr_netmask, addr_and and addr_cmp.
- NetFlow versions 1, 5 and 7: fixed layouts.
- The log socket and the estimation hook of process_flow, and a collector without an open log.
- The header of the log file and store_swab_flow.
- store_v2_flow_serialise and its writing path: version 2 records are only read and converted.
- Text output of rules, flows and configurations, and the configuration grammar: the parsed configuration is a parameter.
- Descriptor numbers across a channel: a received descriptor has the number that was sent.
- Freed memory: a configuration or a peer that is freed is only no longer reachable from the lists.
- XML comments, declarations, CDATA, unknown tags, UTF-8 and byte order marks, cursor positions, and the tree that is left after a parse error; printing with line breaks and indentation is modelled step by step but the round trip is for stream printing.
- The assert at the start of TiXmlBase::ReadName, which stops a debug build at a tag that ends with the text; the model gives the null pointer there, as a release build does.
- Emulator sources other than TinyXML.
