# bgpd in Dafny

A model of the BGP daemon in `quagga-ns3-old/bgpd` (a Quagga bgpd extended with a trust and voting exchange between
neighbours), and proofs about it. Values are modelled as values; whatever the daemon updates in place is a class with the
same fields, or an array. Lists the daemon links by hand are sequence-valued fields, hash tables are maps, and text and
packets are sequences. Each method is proved against a specification function or a stated property, and the lemmas prove
what those functions mean.

| files | what they model |
|---|---|
| `Prefixes`, `PrefixBytes` | prefixes as bit strings, their order, and the byte-wise tests that compute on them |
| `Table`, `TableRuns` | the path-compressed route trie with glue nodes, lock counts, cascading deletion and traversal |
| `Nexthop` | its two clients: the next-hop cache and the connected networks |
| `SortedSets`, `Decimal`, `Sequences` | sorted duplicate-free word lists, decimal text, regrouping of appends (used by several of the others) |
| `AsPath`, `AsPathWire`, `AsPathStream`, `AsPathText` | AS path algebra, wire form, stream access, text form |
| `Octets`, `UpdateWire` | numbers and bits in octets; prefixes and UPDATE messages as octets, written and read |
| `AdjOut` | the queues of announcements and withdrawals towards a peer |
| `Trust`, `Voting`, `VotingRuns` | observed trust, the voting exchange between ten routers, and what its runs come to |
| `Interning` | reference counts of shared AS paths and attribute sets |
| `Community`, `CommunityText` | community lists as canonical sets, and their text form |
| `Fsm` | the session state machine |

Surroundings the code reads but does not own are parameters: the answer of a routing query, the octets an attribute set
takes on the wire, socket outcomes, negotiated hold times, random trust values, and the loss, delay and reordering of messages in flight.

Where the code does not do what one would expect of it, the model follows the code, and the exact condition is proved:

- Writing an AS path segment of more than 255 numbers repeats the first chunk instead of moving on, so a normalised path
  survives the wire if and only if its segments are non-empty and fit one chunk, or are sequences whose full chunks repeat
  the first (`AsPathWire.WireRoundTrip`, which covers every sequence of up to 510 numbers). The byte count returned is
  right if and only if no segment needs more than two chunks (`AsPathWire.PutCountExact`). A sequence of 511 different
  numbers and a set of 256 are examples (`AsPathWire.LongSequenceGarbled`, `AsPathWire.LargeSetSplit`).
- A path for which a packet has no room is cut without a word before the first segment that does not fit, and the peer
  reads a shorter path (`AsPathStream.AspathPut`, `AsPathWire.CutArrives`).
- An update whose attributes and first prefix do not fit one packet aborts the process, so the queue is sent in full if
  and only if every queued announcement fits a packet with its attributes (`AdjOut.Peer.Drain`, `AdjOut.OversizeAborts`).
- A path that begins with an empty segment is changed by prepending, so tunnelling through 2-octet speakers is lossless if
  and only if it does not (`AsPath.TunnelLossless`, `AsPath.TunnelLosesEmptyLead`).
- A peer stops at the first multicast prefix of an UPDATE, so it holds what was sent if and only if there is none
  (`AdjOut.MessageDigested`, `UpdateWire.PrefixesTaken`).
- A confederation at the head of an AS_PATH stays in front when the path behind it is reconciled with an AS4_PATH, if and
  only if there are hops to spare or it does not end in an empty sequence (`AsPath.ReconcileBehindConfeds`).
- The count of routes sent to a peer is not taken down when a session's routes are cleared, so it exceeds the routes held
  by exactly the number of held routes cleared (`AdjOut.Peer.Run`, `AdjOut.ClearMiscounts`).
- A community deleted from a list that holds it more than once stays a member (`Community.RemovedIsDifference`,
  `Community.RepeatedStays`).
- A completed clearing that finds a session established ends it without counting it as dropped, so the counters of
  sessions established and dropped stay balanced if and only if no clearing completes while a session is up
  (`Fsm.Peer.Run`, `Fsm.ClearingEndsUnnoticed`).
- A session given up for an unexpected message keeps its socket (`Fsm.AbandonedOpen`).
- A vote of zero is stored as no vote, so a router that gets votes from its neighbours only, one of which always votes
  zero, never reports (`Voting.ZeroVoteStarves`).

Standards the code follows: RFC 4271 (sections 4.3, 8.2.2 and 9.2) and RFC 6793 (sections 4.2.2 and 4.2.3).

## Model

| member | source | states |
|---|---|---|
| PrefixBytes.PrefixMatch | quagga-ns3-old/lib/prefix.c:69-94 | the byte-wise test succeeds exactly when one bit string is a prefix of the other |
| PrefixBytes.PartialByte | quagga-ns3-old/lib/prefix.c:69-94 | two bytes agree under the mask of m high bits exactly when their first m bits agree |
| PrefixBytes.SharedBits | quagga-ns3-old/bgpd/bgp_table.c:191-200 | the bit walk stops at the first differing bit of the byte, or at the prefix's end |
| PrefixBytes.RouteCommon | quagga-ns3-old/bgpd/bgp_table.c:169-202 | the array written holds the longest common prefix and zeroes after it, and the length returned is its length |
| PrefixBytes.CommonOfNode | quagga-ns3-old/bgpd/bgp_table.c:339-343 | cutting the node's bytes at the query's length does not change the common prefix of node and query |
| PrefixBytes.ApplyMask | quagga-ns3-old/lib/prefix.c:317-338 | the array keeps the first plen bits and is zero behind them |
| Prefixes.CommonIsLongest | quagga-ns3-old/bgpd/bgp_table.c:169-202 | nothing longer is a prefix of both |
| Table.BgpTable.Lock | quagga-ns3-old/bgpd/bgp_table.c:213-219 | one more lock on one node, nothing else changes |
| Table.BgpTable.Unlock | quagga-ns3-old/bgpd/bgp_table.c:221-230 | the trie stays well formed, at most two nodes go, none that is locked, and the prefix map is untouched |
| Table.BgpTable.Match | quagga-ns3-old/bgpd/bgp_table.c:232-257 | returns the longest entry that is a prefix of the query, locked once, and null exactly when there is none |
| Table.BgpTable.Lookup | quagga-ns3-old/bgpd/bgp_table.c:287-305 | exact lookup in the prefix map: a node exactly when the prefix has a payload, locked once |
| Table.BgpTable.FindSpot | quagga-ns3-old/bgpd/bgp_table.c:315-327 | the descent ends at the prefix's node or between the two nodes it belongs between |
| Table.BgpTable.NodeGet | quagga-ns3-old/bgpd/bgp_table.c:307-362 | returns the only node for the prefix, made when missing, locked once; at most two new nodes; locks, payloads and map of all else unchanged |
| Table.BgpTable.SetLink | quagga-ns3-old/bgpd/bgp_table.c:204-211 | the child goes on the side of its next bit, with its parent link |
| Table.BgpTable.Interpose | quagga-ns3-old/bgpd/bgp_table.c:337-348 | a node put between a node and its parent keeps all links agreeing |
| Table.BgpTable.Delete | quagga-ns3-old/bgpd/bgp_table.c:364-404 | exactly which nodes go: none with two children, the node itself, and its unlocked parent when it was a leaf; the prefix map is untouched |
| Table.BgpTable.Splice | quagga-ns3-old/bgpd/bgp_table.c:377-399 | a node with at most one child is unlinked and its child takes its place; one node fewer |
| Table.BgpTable.Top | quagga-ns3-old/bgpd/bgp_table.c:406-418 | returns the first node in preorder, locked, or null for the empty trie |
| Table.BgpTable.FindNext | quagga-ns3-old/bgpd/bgp_table.c:430-456 | the climb finds the least node after the given one in preorder, or null when there is none |
| Table.BgpTable.RouteNext | quagga-ns3-old/bgpd/bgp_table.c:420-459 | moves the hold to the next node in preorder although the node it leaves may be freed, and its glue parent too |
| Table.BgpTable.Walk | quagga-ns3-old/bgpd/bgp_table.c:406-459 | top and repeated next visit every node once, in preorder, and leave shape, locks and map as they were |
| Table.BgpTable.Free | quagga-ns3-old/bgpd/bgp_table.c:102-161 | frees every node, held or not, and ends with the count at zero |
| Table.BgpTable.UniquePrefixes | quagga-ns3-old/bgpd/bgp_table.c:307-362 | no two nodes have the same prefix |
| Table.BgpTable.CompressedShape | quagga-ns3-old/bgpd/bgp_table.c:337-357 | a prefix has a node exactly when it is held or is where two held prefixes part |
| TableRuns.GetStep | quagga-ns3-old/bgpd/bgp_table.c:307-362 | the node got is one more hold and every lock is still the number of holds |
| TableRuns.ReleaseStep | quagga-ns3-old/bgpd/bgp_table.c:221-230 | one hold fewer, every lock still the number of holds, at most two nodes freed, nothing held among them |
| TableRuns.ReleaseGuard | quagga-ns3-old/bgpd/bgp_table.c:221-230 | whether a release gives up the last hold of an entry can be told from the held prefixes and the map alone |
| TableRuns.Step | quagga-ns3-old/bgpd/bgp_table.c:204-404 | held prefixes and prefix map afterwards are what the operation makes of them, and every lock is the number of holds |
| TableRuns.NodesOfHolds | quagga-ns3-old/bgpd/bgp_table.c:307-404 | the nodes of the trie follow from the held prefixes: those held, and those where two held ones part |
| TableRuns.Run | quagga-ns3-old/bgpd/bgp_table.c:204-404 | after any list of get, hold, release, fill and empty from an empty trie, held prefixes and map are what the list spells out on plain lists and maps, the nodes are exactly those the held prefixes call for, and with none held the trie is empty |
| NexthopCache.UnheldIsEmpty | quagga-ns3-old/bgpd/bgp_table.c:364-404 | a well-formed trie in which nothing is locked has no nodes |
| NexthopCache.ReleaseAndStep | quagga-ns3-old/bgpd/bgp_nexthop.c:404-410 | releasing the entry at hand and stepping on reaches the node that followed before anything was freed |
| NexthopCache.Reset | quagga-ns3-old/bgpd/bgp_nexthop.c:397-411 | the walk meets every entry once, in preorder, although nodes are freed and spliced under it, and leaves an empty trie with count zero |
| NexthopCache.GatesChanged | quagga-ns3-old/bgpd/bgp_nexthop.c:111-169 | two answers differ in number, kind, or in the gateway or interface that their kind uses |
| NexthopCache.Compare | quagga-ns3-old/bgpd/bgp_nexthop.c:350-373 | the answer is marked against the other cache's entry for the address, if there is one, and that cache keeps its entries and locks |
| NexthopCache.UsedMeans | quagga-ns3-old/bgpd/bgp_nexthop.c:111-146 | next hops are the same when their kind is and the addresses and interface that this kind uses are |
| NexthopCache.Lookup | quagga-ns3-old/bgpd/bgp_nexthop.c:337-381 | a cached answer is returned unchanged; otherwise the answer to the query, or an invalid one, marked as changed against the other cache when asked, is cached under the address; every entry keeps exactly one lock |
| NexthopCache.FreshMeans | quagga-ns3-old/bgpd/bgp_nexthop.c:346-380 | a new answer is the query's or invalid; compared with the other cache it is marked changed exactly when the next hops differ, and the metric likewise |
| Connected.NetworkOf | quagga-ns3-old/bgpd/bgp_nexthop.c:562-596 | masked octet by octet and tested on octets, the address gives its network, or none for the default, unspecified or link-local one |
| Connected.LinkLocalOctets | quagga-ns3-old/bgpd/bgp_nexthop.c:586-593 | a masked address is link-local exactly when it starts with 0xfe and then the bits 10 |
| Connected.ConnectedTable.AddConnected | quagga-ns3-old/bgpd/bgp_nexthop.c:543-609 | one more reference for the masked network, and one lock per reference |
| Connected.ConnectedTable.DeleteConnected | quagga-ns3-old/bgpd/bgp_nexthop.c:611-676 | one reference fewer for a known network, which goes with its last one |
| Connected.ConnectedTable.DropReference | quagga-ns3-old/bgpd/bgp_nexthop.c:639-647 | both locks are given up, and payload and lock agree again |
| Connected.ConnectedTable.Run | quagga-ns3-old/bgpd/bgp_nexthop.c:543-676 | after any sequence of additions and deletions every network's reference count and lock are its balance, cut off at zero |
| Connected.BalanceIsBest | quagga-ns3-old/bgpd/bgp_nexthop.c:543-676 | the reference count of the network that an address and a length name is the most by which additions of addresses agreeing with it that far outweigh deletions since any point in time |
| Connected.CoveredMeans | quagga-ns3-old/bgpd/bgp_nexthop.c:172-213 | an address is on link exactly when, for some length, since some point in time more addresses of that length agreeing with it on that many bits were added than deleted, loopbacks, length 0, unspecified and link-local ones not counted |
| Connected.ConnectedTable.OnNetwork | quagga-ns3-old/bgpd/bgp_nexthop.c:184-188 | true exactly when some network with a positive balance covers the address; no lock is left behind |
| Connected.ConnectedTable.CheckEbgp | quagga-ns3-old/bgpd/bgp_nexthop.c:172-213 | with the lookup socket down always true; else, in IPv4 exactly when a network with a positive balance covers the next hop, in IPv6 exactly when the next hop has 32 octets, or has 16 and is link-local or covered |
| Connected.CountsStep | quagga-ns3-old/bgpd/bgp_nexthop.c:543-676 | one operation on the reference counts matches one more operation in the balances |
| SortedSets.WeedInPlace | quagga-ns3-old/bgpd/bgp_aspath.c:281-293 | the loop leaves one of each run of equal neighbours, in order |
| SortedSets.SortUnique | quagga-ns3-old/bgpd/bgp_aspath.c:274-294 | sorting and weeding give the canonical list |
| SortedSets.CanonUnique | quagga-ns3-old/bgpd/bgp_aspath.c:274-294 | two lists have the same canonical list exactly when they have the same members |
| SortedSets.SortPermutes | quagga-ns3-old/bgpd/bgp_aspath.c:279 | sorting keeps the number of occurrences of every value |
| AsPath.CountHops | quagga-ns3-old/bgpd/bgp_aspath.c:431-447 | counts a sequence's numbers, one for a set, none for confederation segments |
| AsPath.CountConfeds | quagga-ns3-old/bgpd/bgp_aspath.c:413-429 | counts a confederation sequence's numbers and one for a confederation set |
| AsPath.AsPathChain.SortPinned | quagga-ns3-old/bgpd/bgp_aspath.c:274-294 | a set becomes its canonical list, other segments stay |
| AsPath.AsPathChain.Pack | quagga-ns3-old/bgpd/bgp_aspath.c:296-315 | the sequences following a sequence are taken into it, without changing what the chain normalises to |
| AsPath.AsPathChain.NormaliseInPlace | quagga-ns3-old/bgpd/bgp_aspath.c:252-320 | the in-place loops compute the normal form |
| AsPath.NormaliseNormal | quagga-ns3-old/bgpd/bgp_aspath.c:252-320 | a normal form has increasing sets and no two adjoining sequences |
| AsPath.NormalFixpoint | quagga-ns3-old/bgpd/bgp_aspath.c:252-320 | what is in normal form is left as it is |
| AsPath.NormaliseIdempotent | quagga-ns3-old/bgpd/bgp_aspath.c:252-320 | normalising twice is normalising once |
| AsPath.NormaliseKeeps | quagga-ns3-old/bgpd/bgp_aspath.c:252-320 | hop counts and the set of AS numbers are kept |
| AsPath.NormaliseCanonical | quagga-ns3-old/bgpd/bgp_aspath.c:252-320 | two paths normalise alike if and only if they differ only by cutting sequences and by order or repetition inside sets |
| AsPath.AsPathChain.AddOneAs | quagga-ns3-old/bgpd/bgp_aspath.c:1354-1389 | the AS goes in front of a segment of its kind, or in a new segment; an empty first segment is replaced |
| AsPath.AddOneLeftmost | quagga-ns3-old/bgpd/bgp_aspath.c:1354-1389 | one AS number of the given kind more, leftmost, in a segment of its own unless it joins one of its kind |
| AsPath.CopySegment | quagga-ns3-old/bgpd/bgp_aspath.c:1474-1504 | one segment of the walk takes the hops it still may and says how many are left |
| AsPath.TakeLeading | quagga-ns3-old/bgpd/bgp_aspath.c:1472-1516 | the walk copies exactly the leading hops |
| AsPath.TakeHopsLead | quagga-ns3-old/bgpd/bgp_aspath.c:1473-1519 | what is copied is the shortest lead of the path worth the hops asked for; only an AS_SEQUENCE is cut, and a confederation sequence across the boundary is kept whole |
| AsPath.ReconcileAs4 | quagga-ns3-old/bgpd/bgp_aspath.c:1432-1532 | the routine computes the reconciled path |
| AsPath.ReconcileMeans | quagga-ns3-old/bgpd/bgp_aspath.c:1435-1532 | for all paths: the AS4_PATH takes the place of as many hops as it has at the end, confederation hops counted; with more hops than there are, it goes behind a lead of as many hops as the AS_PATH has outside confederations |
| AsPath.ReconcileBehindConfeds | quagga-ns3-old/bgpd/bgp_aspath.c:1449-1532 | behind a confederation the rest is reconciled as it would be alone and the confederation stays in front whole, if and only if there are hops to spare or it does not end in an empty sequence |
| AsPath.ReconcileKeepsConfeds | quagga-ns3-old/bgpd/bgp_aspath.c:1449-1532 | then hops and confederation hops are those of the AS_PATH, and every AS of the confederation is still found |
| AsPath.ConfedsStay | quagga-ns3-old/bgpd/bgp_aspath.c:1449-1532 | (65001 65002) 1 23456 with 1 70000 gives (65001 65002) 1 70000 |
| AsPath.ReconcileHops | quagga-ns3-old/bgpd/bgp_aspath.c:1432-1532 | for confederation-free paths at least as long as the AS4_PATH, the hop count is conserved |
| AsPath.ReconcileKeepsAs4 | quagga-ns3-old/bgpd/bgp_aspath.c:1432-1532 | no AS number of the AS4_PATH is lost |
| AsPath.ReconcileShort | quagga-ns3-old/bgpd/bgp_aspath.c:1451-1463 | an AS_PATH shorter than its AS4_PATH is kept whole in front of it |
| AsPath.TunnelLossless | quagga-ns3-old/bgpd/bgp_aspath.c:1354-1532 | any ASes prepended to the AS_TRANS-substituted copy, reconciled with the path, give exactly those ASes prepended to the path, if and only if no empty first segment gets lost |
| AsPath.TunnelLosesEmptyLead | quagga-ns3-old/bgpd/bgp_aspath.c:1354-1389 | a path that is one empty set does not come through |
| AsPathWire.AsnRoundTrip | quagga-ns3-old/bgpd/bgp_aspath.c:815-831 | an AS number read back is the one written, or AS_TRANS when it does not fit two octets |
| AsPathWire.AsnOctets | quagga-ns3-old/bgpd/bgp_aspath.c:815-831 | the octets of an AS number are its digits to the base 256, most significant first |
| AsPathWire.OctetsAsn | quagga-ns3-old/bgpd/bgp_aspath.c:756-758 | and a number is read as what its octets stand for |
| AsPathWire.WireExample | quagga-ns3-old/bgpd/bgp_aspath.c:833-842 | segments of each kind octet by octet |
| AsPathWire.ParseExact | quagga-ns3-old/bgpd/bgp_aspath.c:676-771 | the parser accepts exactly the concatenations of well-formed non-empty segments, and every accepted octet string has one reading |
| AsPathWire.ParsedIsWire | quagga-ns3-old/bgpd/bgp_aspath.c:676-771 | whatever parses is the encoding of what it parses to |
| AsPathWire.ParseWire | quagga-ns3-old/bgpd/bgp_aspath.c:676-831 | what was written parses to what survives of it on that session |
| AsPathWire.EmptySegmentRejected | quagga-ns3-old/bgpd/bgp_aspath.c:720-734 | an empty segment written is refused by the parser |
| AsPathWire.GarbledIffPeriodic | quagga-ns3-old/bgpd/bgp_aspath.c:871-883 | writing the first chunk every time leaves a sequence as it was exactly when its full chunks repeat the first, and always up to 510 numbers |
| AsPathWire.PackedFits | quagga-ns3-old/bgpd/bgp_aspath.c:889-908 | the patched count octet of packed sequences stays within one octet |
| AsPathWire.PutCountExact | quagga-ns3-old/bgpd/bgp_aspath.c:844-916 | the count returned is the number of octets written if and only if no segment needs more than two chunks |
| AsPathWire.ParsePut | quagga-ns3-old/bgpd/bgp_aspath.c:676-916 | reading a normalised path back gives its split segments, or fails exactly when a segment is empty |
| AsPathWire.WireRoundTrip | quagga-ns3-old/bgpd/bgp_aspath.c:676-916 | on a 4-octet session a normalised path arrives unchanged if and only if every segment is non-empty and fits one chunk or is a sequence whose full chunks repeat the first |
| AsPathWire.LongSequenceGarbled | quagga-ns3-old/bgpd/bgp_aspath.c:871-883 | 511 different numbers come back changed, and their count is wrong |
| AsPathWire.LargeSetSplit | quagga-ns3-old/bgpd/bgp_aspath.c:871-883 | a set of 256 numbers does not come back |
| AsPathWire.EnoughRoom | quagga-ns3-old/bgpd/bgp_aspath.c:864-867 | with room for the whole encoding the loop that stops for want of room writes and counts all of it |
| AsPathWire.CutArrives | quagga-ns3-old/bgpd/bgp_aspath.c:844-916 | whatever the room, a normalised path of one-chunk segments is written up to the first segment that does not fit, and that shorter path is what is read |
| AsPathWire.NarrowTrip | quagga-ns3-old/bgpd/bgp_aspath.c:676-916 | on a 2-octet session it arrives substituted and re-normalised |
| AsPathWire.RelayArrives | quagga-ns3-old/bgpd/bgp_aspath.c:1354-1396 | through any number of 2-octet routers the substituted path arrives with their ASes prepended |
| AsPathWire.HasAs4 | quagga-ns3-old/bgpd/bgp_aspath.c:489-504 | true exactly when some number of the path does not fit two octets |
| AsPathWire.NarrowExactly | quagga-ns3-old/bgpd/bgp_aspath.c:489-504 | an AS4_PATH is called for exactly when the 2-octet form would lose something |
| AsPathWire.TunnelOnWire | quagga-ns3-old/bgpd/bgp_attr.c:2040-2059 | end to end over octets: sent in two octets, with the AS4_PATH when and only when a number needs four, relayed by 2-octet routers, put together again, the path is the original with the relays' ASes prepended |
| AsPathWire.TunnelAny | quagga-ns3-old/bgpd/bgp_attr.c:1219-1331 | reconciling gives the path with the prepended ASes for any number of them, none included |
| AsPathStream.DataPut | quagga-ns3-old/bgpd/bgp_aspath.c:815-831 | appends the numbers in the session's width |
| AsPathStream.HeaderPut | quagga-ns3-old/bgpd/bgp_aspath.c:833-842 | appends type and count and returns where the count is |
| AsPathStream.PutOverlength | quagga-ns3-old/bgpd/bgp_aspath.c:871-878 | writes the first full chunk as often as there are full chunks before the last piece, and what it adds to the byte count |
| AsPathStream.PackNext | quagga-ns3-old/bgpd/bgp_aspath.c:900-907 | appends one more sequence's numbers and patches the count octet |
| AsPathStream.PutPacked | quagga-ns3-old/bgpd/bgp_aspath.c:889-908 | packs exactly the following sequences that fit beside the first |
| AsPathStream.PutOne | quagga-ns3-old/bgpd/bgp_aspath.c:864-913 | one turn of the writer's outer loop |
| AsPathStream.PutTurn | quagga-ns3-old/bgpd/bgp_aspath.c:864-913 | one turn writes and counts what its segments come to, and aborts exactly when that exceeds the room |
| AsPathStream.PutSegments | quagga-ns3-old/bgpd/bgp_aspath.c:862-914 | the outer loop stops before the first segment that does not fit whole, and aborts exactly when a turn exceeds the room left |
| AsPathStream.AspathPut | quagga-ns3-old/bgpd/bgp_aspath.c:844-916 | whatever room the stream has: aborts exactly when a write runs out of it, else appends exactly the octets that the room allows and returns their count; with room for everything that is the whole encoding |
| AsPathStream.GetAsns | quagga-ns3-old/bgpd/bgp_aspath.c:757-758 | reads the numbers at the cursor and moves past exactly them |
| AsPathStream.GetSegment | quagga-ns3-old/bgpd/bgp_aspath.c:700-760 | reads one well-formed segment, or reports that there is none |
| AsPathStream.GetSegments | quagga-ns3-old/bgpd/bgp_aspath.c:697-768 | reads segments until exactly the given octets are used up |
| AsPathStream.AssegmentsParse | quagga-ns3-old/bgpd/bgp_aspath.c:676-771 | fails when fewer octets are left than asked for, otherwise parses and normalises exactly those octets, and consumes them on success |
| AsPathText.Snprintf | quagga-ns3-old/bgpd/bgp_aspath.c:578-596 | counts the full text and writes it whole when it fits |
| AsPathText.PrintAsns | quagga-ns3-old/bgpd/bgp_aspath.c:583-590 | a segment's numbers fit eleven characters each |
| AsPathText.PrintSegment | quagga-ns3-old/bgpd/bgp_aspath.c:569-596 | a segment fits the room its number count asks for |
| AsPathText.MakeStr | quagga-ns3-old/bgpd/bgp_aspath.c:506-606 | for every path of 32-bit numbers the buffer is grown enough: the text is complete and the final assertion holds |
| AsPathText.PrintedPunctuation | quagga-ns3-old/bgpd/bgp_aspath.c:541-600 | a printed path without its digits: commas in braces and brackets, blanks in parentheses and bare sequences, one less than there are numbers, and a blank between segments |
| AsPathText.GetToken | quagga-ns3-old/bgpd/bgp_aspath.c:1674-1738 | the next token and where the text goes on, the end, or an unknown character |
| AsPathText.GetNumber | quagga-ns3-old/bgpd/bgp_aspath.c:1716-1732 | reads the longest run of digits, in 32-bit arithmetic |
| AsPathText.Str2Aspath | quagga-ns3-old/bgpd/bgp_aspath.c:1740-1804 | the token loop computes the parsed path, and fails on unknown tokens |
| AsPathText.TextOfPath | quagga-ns3-old/bgpd/bgp_aspath.c:506-606 | parsing the printed form of any path gives it with empty sequences gone and adjoining sequences joined |
| AsPathText.TextRoundTrip | quagga-ns3-old/bgpd/bgp_aspath.c:1740-1804 | for normalised paths, printing and parsing is the identity if and only if there is no empty sequence |
| Decimal.ValueOfShow | quagga-ns3-old/bgpd/bgp_aspath.c:1716-1732 | a printed 32-bit number is read back as itself |
| Decimal.ValueWraps | quagga-ns3-old/bgpd/bgp_aspath.c:1716-1732 | any string of digits is read as its number modulo 2 to the 32 |
| Decimal.ShowWidth | quagga-ns3-old/bgpd/bgp_aspath.c:506-606 | a 32-bit number takes at most ten characters and a 16-bit one at most five |
| Octets.Word16Value | quagga-ns3-old/lib/stream.c:499-515 | a 16-bit number in two octets, most significant first |
| Octets.BitPlace | quagga-ns3-old/lib/prefix.h:130-138 | bit k of an octet from the left, by shifting and masking |
| UpdateWire.AddressBits | quagga-ns3-old/lib/stream.c:670-690 | the octets written for a prefix hold its bits and zeros behind them, in as few octets as will do |
| UpdateWire.SanityCheck | quagga-ns3-old/bgpd/bgp_route.c:3202-3256 | accepts exactly the fields in which every length octet is at most 32 and followed by the octets it calls for |
| UpdateWire.NlriParse | quagga-ns3-old/bgpd/bgp_route.c:3103-3199 | acts on the prefixes up to the first that is malformed or multicast |
| UpdateWire.PrefixesRead | quagga-ns3-old/lib/stream.c:670-690 | whatever prefixes are written, the octets are well formed and list exactly them |
| UpdateWire.PrefixesTaken | quagga-ns3-old/bgpd/bgp_route.c:3103-3199 | of written prefixes exactly those before the first multicast one are acted upon |
| UpdateWire.MulticastOctet | quagga-ns3-old/bgpd/bgp_route.c:3145-3162 | multicast means a first octet from 224 to 239 |
| UpdateWire.PacketRead | quagga-ns3-old/bgpd/bgp_packet.c:1766-1925 | a message carries its marker, its own length and its type, and comes apart into the fields it was made of |
| UpdateWire.BodyExact | quagga-ns3-old/bgpd/bgp_packet.c:1766-1925 | every body that is accepted is well formed and the body of what it comes apart into |
| AdjOut.SizesExact | quagga-ns3-old/bgpd/bgp_packet.c:159-219 | the sizes kept below the limit are the numbers of octets of the packets |
| AdjOut.MessageRead | quagga-ns3-old/bgpd/bgp_packet.c:1766-1925 | taking the octets of a sent message apart gives its attribute set and exactly its prefixes |
| AdjOut.MessageDigested | quagga-ns3-old/bgpd/bgp_route.c:3103-3199 | the peer's table becomes what the message says, up to the first multicast prefix |
| AdjOut.Peer.Lookup | quagga-ns3-old/bgpd/bgp_advertise.c:163-179 | true exactly for the desired prefixes |
| AdjOut.Peer.Unshare | quagga-ns3-old/bgpd/bgp_advertise.c:111-153 | one advertisement off the list, one reference fewer; the shared attribute leaves the table with its last |
| AdjOut.Peer.Clean | quagga-ns3-old/bgpd/bgp_advertise.c:181-213 | exactly the pending advertisement leaves its queue and its attribute's list; returns another one with the same attribute, or null when none is left |
| AdjOut.Peer.Intern | quagga-ns3-old/bgpd/bgp_advertise.c:123-134 | finds or makes the shared attribute and counts one more reference |
| AdjOut.Peer.Share | quagga-ns3-old/bgpd/bgp_advertise.c:101-109 | the new advertisement heads its attribute's list |
| AdjOut.Peer.Announce | quagga-ns3-old/bgpd/bgp_advertise.c:248-266 | the prefix becomes desired with the attribute and every link agrees |
| AdjOut.Peer.Set | quagga-ns3-old/bgpd/bgp_advertise.c:215-267 | the desired map gains the route, replacing whatever was pending for it; nothing is sent yet |
| AdjOut.Peer.Retract | quagga-ns3-old/bgpd/bgp_advertise.c:291-304 | a sent route gets a pending withdrawal |
| AdjOut.Peer.Unset | quagga-ns3-old/bgpd/bgp_advertise.c:269-315 | the desired map loses the route, whatever was pending or sent for it |
| AdjOut.Peer.Remove | quagga-ns3-old/bgpd/bgp_advertise.c:317-329 | the prefix is gone from everything, and only it |
| AdjOut.Peer.SendOne | quagga-ns3-old/bgpd/bgp_packet.c:211-219 | the peer's table gains the prefix with its desired attribute, its announcement leaves the queue, the count follows the table |
| AdjOut.Peer.HeadFits | quagga-ns3-old/bgpd/bgp_packet.c:159-219 | when every desired route fits a packet with its attributes, so does every queued announcement |
| AdjOut.Peer.SendUpdate | quagga-ns3-old/bgpd/bgp_packet.c:145-235 | aborts exactly when the attributes and the first prefix exceed the packet; else one UPDATE within the packet, whose prefixes all desire its attribute; the peer's table learns exactly them; same-attribute prefixes stay behind only when it is full |
| AdjOut.Peer.WithdrawOne | quagga-ns3-old/bgpd/bgp_packet.c:297-339 | the head withdrawal names a sent, no longer desired route; the count does not underflow |
| AdjOut.Peer.SendWithdraw | quagga-ns3-old/bgpd/bgp_packet.c:281-362 | the peer's table forgets exactly the listed routes, all sent and no longer desired, in a packet within the size limit |
| AdjOut.Peer.OnePending | quagga-ns3-old/bgpd/bgp_advertise.c:215-315 | a prefix has at most one pending advertisement, in exactly one queue |
| AdjOut.Peer.SharedCount | quagga-ns3-old/bgpd/bgp_advertise.c:101-153 | a shared attribute is in the table exactly while announcements with it are queued, and its count is their number |
| AdjOut.Peer.Drained | quagga-ns3-old/bgpd/bgp_packet.c:506-568 | with both queues empty the peer's table is the desired map and no shared attribute is left |
| AdjOut.Peer.Send | quagga-ns3-old/bgpd/bgp_packet.c:506-568 | a message from either queue takes the peer's table along and shortens the queues; an abort means that a queued announcement does not fit |
| AdjOut.Peer.Drain | quagga-ns3-old/bgpd/bgp_packet.c:506-568 | sending from either queue at every turn empties both if and only if every queued announcement fits a packet with its attributes; then the peer's table is the desired map; in every case it is what replaying the messages gives |
| AdjOut.Peer.Clear | quagga-ns3-old/bgpd/bgp_route.c:2919-2927 | the prefix is gone on both sides, and a sent route stays counted |
| AdjOut.Peer.Step | quagga-ns3-old/bgpd/bgp_advertise.c:163-329 | a step aborts exactly when it builds an update that does not fit; else the desired map changes as the operation says and by nothing else, the peer's table by exactly the messages of that operation, and the queues shrink or grow as it allows |
| AdjOut.RanMeans | quagga-ns3-old/bgpd/bgp_advertise.c:163-329 | for any chain of such steps: the desired map is what the operations spell out, the peer's table the replay of the log, the routes lost to clearing those the log cleared, as many clearings as operations asked for, and queues no longer than the operations account for |
| AdjOut.Peer.Run | quagga-ns3-old/bgpd/bgp_advertise.c:163-329 | every run of operations that fit goes through and is such a chain, one log entry list for each operation; table and desired map are equal whenever the operations end in enough sends or the queues are empty; the count exceeds the table by exactly the held routes cleared, hence by nothing new when nothing is cleared |
| AdjOut.ClearMiscounts | quagga-ns3-old/bgpd/bgp_route.c:2919-2927 | after a route is announced, sent and cleared, one route is counted and none is announced |
| AdjOut.OversizeAborts | quagga-ns3-old/bgpd/bgp_packet.c:159-205 | a route whose attributes fill the packet is announced, and building its update aborts |
| Trust.StaysInRange | quagga-ns3-old/bgpd/bgp_packet.c:2116-2143 | the average of any stream of values stays in every range that holds its start and the values |
| Trust.FixedPoints | quagga-ns3-old/bgpd/bgp_packet.c:2136 | a value leaves the average unchanged exactly when it is at most nine above it |
| Trust.Settles | quagga-ns3-old/bgpd/bgp_packet.c:2116-2143 | under a constant value the average ends at the value from above and nine short of it from below, within as many steps as it started away, and stays |
| Voting.Router.CountVotes | quagga-ns3-old/bgpd/bgp_packet.c:950-954 | the number of non-zero votes |
| Voting.Router.AnyRequest | quagga-ns3-old/bgpd/bgp_packet.c:992-997 | whether some request is waiting |
| Voting.Router.NoneLeft | quagga-ns3-old/bgpd/bgp_packet.c:974-978 | whether no request is left |
| Voting.Router.SendCollected | quagga-ns3-old/bgpd/bgp_packet.c:930-1002 | the files and messages of the report-or-ask half of a keepalive |
| Voting.Router.SendVote | quagga-ns3-old/bgpd/bgp_packet.c:845-882 | the vote sent is the trust held, in 16 bits, once per request |
| Voting.Router.SendKeepalive | quagga-ns3-old/bgpd/bgp_packet.c:923-1018 | everything a keepalive sends, in order, and the files after it |
| Voting.Router.Receive | quagga-ns3-old/bgpd/bgp_packet.c:2116-2234 | the files after each kind of message; observed trust never needs more than 16 bits |
| Voting.KeepaliveStep | quagga-ns3-old/bgpd/bgp_packet.c:923-1018 | the network's keepalive step is the router's method |
| Voting.KeepaliveKeeps | quagga-ns3-old/bgpd/bgp_packet.c:923-1018 | a keepalive keeps the network invariant |
| Voting.DeliverKeeps | quagga-ns3-old/bgpd/bgp_packet.c:2116-2234 | a delivery keeps the network invariant |
| Voting.RunKeeps | quagga-ns3-old/bgpd/bgp_packet.c:923-1018 | so does every run of keepalives, deliveries in any order, and losses |
| Voting.VotingSafe | quagga-ns3-old/bgpd/bgp_packet.c:795-1018 | in every run from the initial files: reports sent to an AS never exceed requests from it, votes received from an AS never exceed vote requests sent to it, and every delivered report has exactly as many non-zero entries as its sender has neighbours, more than one, each a value that neighbour sent to it |
| Voting.VotersNeeded | quagga-ns3-old/bgpd/bgp_packet.c:948-972 | in every run a router that ever reported has had non-zero votes from at least as many others as it has neighbours |
| Voting.ZeroVoteStarves | quagga-ns3-old/bgpd/bgp_packet.c:948-972 | in every run a router that gets votes only from its neighbours, one of which only ever votes zero, has reported to nobody |
| Voting.ReportDue | quagga-ns3-old/bgpd/bgp_packet.c:923-1018 | a keepalive sends a report to its receiver exactly when that receiver's request is waiting and the non-zero votes are as many as the neighbours, and the report is the votes held |
| VotingRuns.FilesHold | quagga-ns3-old/bgpd/bgp_packet.c:2116-2234 | in every run a router holds exactly what reached it: requests not reported on and vote requests not answered since, the average of the trust values that came, and of each router the last vote since the votes were last cleared, or zero |
| VotingRuns.KeepaliveSays | quagga-ns3-old/bgpd/bgp_packet.c:923-1018 | in every run a keepalive says exactly: the trust value, a request, a report of the last votes when its receiver waits and as many have voted as there are neighbours, a vote request when someone waits for votes, and when asked for it a vote, the 16-bit sum of observed and own trust at that moment |
| VotingRuns.GotExactly | quagga-ns3-old/bgpd/bgp_packet.c:2116-2234 | what counts as arrived on a link is what was delivered over it |
| VotingRuns.PollOne | quagga-ns3-old/bgpd/bgp_packet.c:923-1018 | while a request waits and votes are missing, four steps bring a router the vote of another |
| VotingRuns.RoundReports | quagga-ns3-old/bgpd/bgp_packet.c:923-1018 | progress: when a request waits and every neighbour has a vote other than zero to give, there is a run in which all are asked and answer, and the requester gets a report of exactly their votes |
| VotingRuns.ReachesAt | quagga-ns3-old/bgpd/bgp_packet.c:923-1018 | these runs are the runs that the safety results are about |
| Voting.InitialInv | networksimulation/perdonato-didon.cc:447-495 | the all-zero files satisfy the network invariant |
| Interning.Store.LockPath | quagga-ns3-old/bgpd/bgp_attr.c:479-485 | one more reference to a shared path |
| Interning.Store.InternPath | quagga-ns3-old/bgpd/bgp_aspath.c:616-637 | the equal path in the table or this one, with one more reference |
| Interning.Store.UninternPath | quagga-ns3-old/bgpd/bgp_aspath.c:341-359 | one reference fewer; the path is found in the table when its last one goes, and leaves it |
| Interning.Store.Attach | quagga-ns3-old/bgpd/bgp_attr.c:521-524 | the set for these fields and this path, found or made, takes over one reference to the path |
| Interning.Store.Detach | quagga-ns3-old/bgpd/bgp_attr.c:650-675 | one reference to the set fewer; the set is found in the table when its last one goes, and leaves it |
| Interning.Store.InternAttr | quagga-ns3-old/bgpd/bgp_attr.c:472-525 | one more reference to a set with these fields and this path, and none to the path itself |
| Interning.Store.UninternAttr | quagga-ns3-old/bgpd/bgp_attr.c:621-678 | one reference to the set fewer, and its path's share with it |
| Interning.Store.EmptyPath | quagga-ns3-old/bgpd/bgp_aspath.c:1630-1644 | a reference to the shared empty path |
| Interning.Store.DefaultIntern | quagga-ns3-old/bgpd/bgp_attr.c:548-567 | leaves one reference to the set and none to its path behind |
| Interning.Store.Conservation | quagga-ns3-old/bgpd/bgp_attr.c:472-525 | a path's count is the sum of the counts of the interned sets naming it plus the direct references held on it |
| Interning.Store.NothingDangles | quagga-ns3-old/bgpd/bgp_attr.c:649-678 | every set held or in its table is in it with a positive count, and so is its path |
| Interning.Store.AllReturned | quagga-ns3-old/bgpd/bgp_attr.c:649-678 | with every reference returned both tables are empty |
| Interning.Store.CountedByName | quagga-ns3-old/bgpd/bgp_attr.c:472-525 | a live path's count is the number of references to its value in the client's ledger |
| Interning.Store.KnownByName | quagga-ns3-old/bgpd/bgp_attr.c:649-678 | a path value is in the table exactly while the ledger has a reference to it |
| Interning.Store.PathStep | quagga-ns3-old/bgpd/bgp_aspath.c:341-637 | taking or returning a path changes the ledger as the operation says |
| Interning.Store.AttrStep | quagga-ns3-old/bgpd/bgp_attr.c:472-678 | so does taking or returning an attribute set |
| Interning.Store.Run | quagga-ns3-old/bgpd/bgp_attr.c:472-678 | after any list of operations the references held are what the list spells out; exactly the paths it leaves a reference to are in the table, each with that many; with everything returned both tables are empty |
| Community.Communities.AddVal | quagga-ns3-old/bgpd/bgp_community.c:50-62 | appends a value |
| Community.Communities.DelVal | quagga-ns3-old/bgpd/bgp_community.c:64-97 | takes out the first occurrence of a value |
| Community.Communities.Delete | quagga-ns3-old/bgpd/bgp_community.c:99-112 | on canonical lists, set difference |
| Community.Communities.Include | quagga-ns3-old/bgpd/bgp_community.c:133-145 | membership |
| Community.Communities.UniqSort | quagga-ns3-old/bgpd/bgp_community.c:161-185 | the strictly increasing list with the same members |
| Community.Communities.Merge | quagga-ns3-old/bgpd/bgp_community.c:455-469 | appended, and once sorted, set union |
| Community.Communities.Match | quagga-ns3-old/bgpd/bgp_community.c:410-437 | the one-pass match on canonical lists is inclusion; two absent lists match, one absent list does not |
| Community.Communities.Cmp | quagga-ns3-old/bgpd/bgp_community.c:441-453 | on canonical lists, set equality |
| Community.EmbedsIsSubset | quagga-ns3-old/bgpd/bgp_community.c:424-436 | passing once over increasing lists decides inclusion, both ways |
| Community.RemovedIsDifference | quagga-ns3-old/bgpd/bgp_community.c:64-97 | deleting a value takes it out of the set if and only if the list holds it at most once |
| Community.RepeatedStays | quagga-ns3-old/bgpd/bgp_community.c:64-97 | deleting a value from a list that holds it twice leaves the set as it was |
| Community.DeleteIsDifference | quagga-ns3-old/bgpd/bgp_community.c:99-112 | deleting a list from a canonical one leaves a canonical list of the difference |
| Community.MergeIsUnion | quagga-ns3-old/bgpd/bgp_community.c:455-469 | the sorted merge is the union |
| Community.SortDistinct | quagga-ns3-old/bgpd/bgp_community.c:171-182 | sorting a list without duplicates gives the canonical list |
| CommunityText.TextFits | quagga-ns3-old/bgpd/bgp_community.c:220-247 | text and terminator fit the length computed beforehand |
| CommunityText.Com2Str | quagga-ns3-old/bgpd/bgp_community.c:196-293 | the buffer ends up holding the printed list and its terminator, and is never overrun |
| CommunityText.ScanLoop | quagga-ns3-old/bgpd/bgp_community.c:534-574 | the digit loop reads a number or a pair in 32-bit arithmetic, or refuses |
| CommunityText.NumberRead | quagga-ns3-old/bgpd/bgp_community.c:533-574 | a number without a colon is the community, modulo 2 to the 32 |
| CommunityText.PairRead | quagga-ns3-old/bgpd/bgp_community.c:541-573 | two numbers with a colon are the first times 65536 plus the second, modulo 2 to the 32 |
| CommunityText.PairRefused | quagga-ns3-old/bgpd/bgp_community.c:543-570 | a colon without a number behind it and a second colon are refused |
| CommunityText.GetToken | quagga-ns3-old/bgpd/bgp_community.c:481-577 | the next token and the text after it, the end, or something else |
| CommunityText.Str2Com | quagga-ns3-old/bgpd/bgp_community.c:579-617 | the parsed list, or null exactly when the text holds no community or something else |
| CommunityText.ValuesOfText | quagga-ns3-old/bgpd/bgp_community.c:588-609 | the loop reads back what was printed, with the last value twice |
| CommunityText.TextRoundTrip | quagga-ns3-old/bgpd/bgp_community.c:579-617 | parsing a printed non-empty list gives its canonical list, hence the list itself if and only if it is canonical |
| Fsm.TableSound | quagga-ns3-old/bgpd/bgp_fsm.c:910-1053 | in every cell: sessions are established only by a KEEPALIVE in OpenConfirm, confirmed only by an OPEN in OpenSent, opened only by a successful connection, and leave Established only by a stop or a completed clearing |
| Fsm.ReachedFrom | quagga-ns3-old/bgpd/bgp_fsm.c:910-1053 | for each state exactly the states, events and surroundings from which it is reached |
| Fsm.SocketKept | quagga-ns3-old/bgpd/bgp_fsm.c:910-1053 | exactly which events close the socket, make a new one or leave it; the hold time goes back to the configured one exactly when it is closed |
| Fsm.AbandonedOpen | quagga-ns3-old/bgpd/bgp_fsm.c:969-1018 | exactly which events end a session and leave its socket open |
| Fsm.StaysExactly | quagga-ns3-old/bgpd/bgp_fsm.c:969-1053 | over any run: a session, a clearing or a deleted peer stays what it is exactly when every event is one that keeps it: for an established session a start, a keepalive timer, a KEEPALIVE or an UPDATE |
| Fsm.FirstDeparture | quagga-ns3-old/bgpd/bgp_fsm.c:1002-1018 | the first other event ends an established session, in Idle for a completed clearing, Deleted for an expired temporary peer, else Clearing |
| Fsm.SessionEnds | quagga-ns3-old/bgpd/bgp_fsm.c:1002-1036 | from there nothing but the completed clearing leads anywhere, and that to Idle without a socket |
| Fsm.OpeningDeparts | quagga-ns3-old/bgpd/bgp_fsm.c:969-1001 | where the first departing event takes a session that is on its way up |
| Fsm.HandshakeEstablishes | quagga-ns3-old/bgpd/bgp_fsm.c:910-1053 | start, connection, OPEN and KEEPALIVE establish a session from Idle exactly when starting is not suppressed and there is a socket |
| Fsm.StopLeads | quagga-ns3-old/bgpd/bgp_fsm.c:910-1053 | where a stop leads from each state |
| Fsm.FailureLeads | quagga-ns3-old/bgpd/bgp_fsm.c:910-1053 | where a failed connection leads from each state |
| Fsm.HoldExpiryLeads | quagga-ns3-old/bgpd/bgp_fsm.c:743-766 | where an expired hold timer leads from each state |
| Fsm.DelayGrows | quagga-ns3-old/bgpd/bgp_fsm.c:579-593 | over any run the start delay is the initial one doubled for every error since a session was last up, and at most 120 |
| Fsm.Peer.TimerSet | quagga-ns3-old/bgpd/bgp_fsm.c:75-214 | which timers run is settled by state, hold time and configuration |
| Fsm.TimersByKind | quagga-ns3-old/bgpd/bgp_fsm.c:75-214 | each timer by the states in which it runs |
| Fsm.Peer.ChangeStatus | quagga-ns3-old/bgpd/bgp_fsm.c:398-420 | the new state; entering OpenSent begins a new session's history |
| Fsm.Peer.StopPeer | quagga-ns3-old/bgpd/bgp_fsm.c:432-577 | an established session counts as dropped, all timers are off, the socket is closed, the hold time is the configured one |
| Fsm.Peer.Backoff | quagga-ns3-old/bgpd/bgp_fsm.c:583-588 | the start delay doubles up to 120 |
| Fsm.Peer.StartPeer | quagga-ns3-old/bgpd/bgp_fsm.c:636-712 | when starting objects, and when it leaves a socket |
| Fsm.Peer.HoldExpire | quagga-ns3-old/bgpd/bgp_fsm.c:743-766 | the peer is stopped, and a temporary one deleted |
| Fsm.Peer.EstablishPeer | quagga-ns3-old/bgpd/bgp_fsm.c:768-793 | one more session established, and the start delay back at its initial value |
| Fsm.Peer.Perform | quagga-ns3-old/bgpd/bgp_fsm.c:910-1053 | what every handler does to counters, socket and state, and when it objects |
| Fsm.Peer.Handle | quagga-ns3-old/bgpd/bgp_fsm.c:1074-1111 | one event moves state, socket, start delay and hold time as those lemmas describe, sets the timers of the new state, and keeps: Established only after an OPEN and then a KEEPALIVE; timers and socket in step with the state; sessions established and dropped accounted for |
| Fsm.OpenCame | quagga-ns3-old/bgpd/bgp_fsm.c:910-1053 | in every run from outside a session that ends in OpenConfirm, an OPEN came after OpenSent was last entered |
| Fsm.EstablishedOrder | quagga-ns3-old/bgpd/bgp_fsm.c:910-1053 | in every run from outside a session that ends Established, an OPEN and after it a KEEPALIVE came after OpenSent was last entered |
| Fsm.UnnoticedNone | quagga-ns3-old/bgpd/bgp_fsm.c:1017 | no session ends unnoticed exactly when no clearing completes while one is up |
| Fsm.Peer.Run | quagga-ns3-old/bgpd/bgp_fsm.c:1074-1111 | every run keeps all of that; state, socket, start delay, hold time, the states passed through and the log are what the events and their surroundings determine; sessions established are the entries into Established; established minus dropped moves away from the state by exactly the clearings that completed while a session was up |
| Fsm.CountsStep | quagga-ns3-old/bgpd/bgp_fsm.c:432-577 | one event keeps the balance of sessions established and dropped |
| Fsm.LoggedStep | quagga-ns3-old/bgpd/bgp_fsm.c:1074-1111 | one event keeps the order of OPEN and KEEPALIVE before Established |
| Fsm.ClockedStep | quagga-ns3-old/bgpd/bgp_fsm.c:75-214 | one event keeps timers and socket in step with the state |
| Fsm.ClearingEndsUnnoticed | quagga-ns3-old/bgpd/bgp_fsm.c:1017 | a completed clearing in Established leaves one session established, none dropped, and the peer idle |

## Left out

- Segments of more than 65535 AS numbers: the source's 16-bit segment length would wrap around.
- AS path aggregation, explicit prepending, filtering, and comparison of leftmost ASes: they would add members without harder laws.
- bgp_route_next_until, table locking per address family, and the IPv6 lookup: the same trie walked with another end test, and the same cache under longer addresses.
- Swapping the two next-hop caches in bgp_scan, and walking the routes with the answers: which cache is current is a choice of its caller, so both are parameters.
- Connected.ConnectedTable.AddConnected: requires an address of its family with a length it has bits for, which the routing daemon sees to.
- Connected.ConnectedTable.DeleteConnected: requires the same, and an interface, which the source takes for granted.
- Receiving an UPDATE is modelled up to its prefixes and the octets of its attributes; parsing attributes and choosing routes are not.
- AdjOut.Peer.SendUpdate: the encoding of attributes is not modelled; the number of octets it writes is a parameter, and which write hits the end of the packet when an update aborts is not told apart.
- Adjacencies of several peers and address families, announcements without an attribute set or a route node, and when an update may be written after a restart: one peer and IPv4 unicast stand for all.
- Voting: each send call counts as one message although the source queues it twice, files are arrays, a dropped neighbour is one whose keepalives are not taken, and AS numbers run from 1 to 10.
- Interning of communities, extended communities, clusters and unknown attributes: the code is that of AS paths once more.
- One interned object per AS path value: the hash is made from a text that prepending does not refresh, so references are counted per object.
- Fsm: events waiting in the queue, graceful-restart and route-advertisement timers, and connections taken over from a temporary peer, which happen outside the event function.
- Extended communities, regular-expression lists, route maps, damping, route selection, the command interface, logging, SNMP and dumps: outside the scope of this model.
