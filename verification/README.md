# RIPv2 router simulation in Dafny

A model of the core of a simplified RIPv2 distance-vector router simulation.
The model has three parts:

- `codec.dfy` (module `Codec`) models the wire codec of packet.py. A RIP-2 message, in the format of section 4 of RFC 2453, has a 4-byte header and 20-byte route table entries (RTEs), every field big-endian. The header's must-be-zero field carries the sending router's id.
  - The header and entry conversions are functions.
  - The two loops of `Packet`, decoding and serialising, are methods proved equal to those functions.
- `routing.dfy` (module `Routing`) models the routing-table engine of router.py:
  - link configuration;
  - relaxation of a received advertisement;
  - split horizon with poisoned reverse;
  - the route timeout timer and the garbage-collection timer;
  - the changed-flag collection of `handle_inputs`.

  `Routing.Router` is a class whose `table` (a `map` from destination to entry), `order` (the dictionary's insertion order) and `changed` fields its methods update. Each method is proved equal to a function on a `RouterState` value, and the properties are lemmas about those functions. The clock is an explicit `now` parameter, in seconds.
- `topology.dfy` (module `Topology`) models `read_router_files` and `_to_output` of main.py. They read a `[ROUTERS]` file of `id:`/`inputs:`/`outputs:` blocks, given as its lines, into `RouterConfig` values or an error.
  - The source's while loop is the method `ReadRouterFile`, proved equal to the function `ParseRouterFile`.
  - A rendering of configurations into the file format is proved to read back to the same configurations.

`wrappers.dfy` holds `Option`, `Result` and `Outcome` (pass, or fail with an error).

Python exceptions are modelled as error values:

| source exception | error value |
|---|---|
| `struct.error` on a short header | `TruncatedHeader` |
| iterating the `None` entries of `Packet(data=b'')` | `EmptyDatagram` |
| `AttributeError` on a header without fields | `MissingSource` |
| `KeyError` for a sender that is not a configured neighbour | `UnknownSender` |
| `Exception("Invalid output parameters")` | `InvalidOutputParameters` |
| a wrong line tag, a non-blank separator line, or any exception inside the parsing `try` (a `ValueError` from `int()`, a token with fewer than 3 fields) | `ImproperFormatting` |
| `IndexError` on `lines[k]` outside that `try` | `MissingLine` |
| too many routers | `TooManyRouters` |

A failed `struct.pack` is `None`.

## Model

| member | source | states |
|---|---|---|
| Codec.Be16RoundTrip | packet.py:133 | a 16-bit field packed big-endian ("!H") unpacks to the same value |
| Codec.Be32RoundTrip | packet.py:133 | a 32-bit field packed big-endian ("!I") unpacks to the same value |
| Codec.Be32BytesRoundTrip | packet.py:133 | four bytes unpacked as "!I" and packed again give the same bytes |
| Codec.HeaderFromNetwork | packet.py:95-103 | unpacking "!BBH" from 4 bytes gives a header with fields; cmd and ver fit a byte, src fits 16 bits |
| Codec.SerializeHeader | packet.py:113-117 | packing succeeds exactly when the header has fields that fit "!BBH", and then gives exactly 4 bytes |
| Codec.HeaderRoundTrip | packet.py:95-117 | serialising an in-range header, then parsing it, gives back cmd, ver and src |
| Codec.HeaderBytesRoundTrip | packet.py:95-117 | parsing any 4 bytes, then serialising, gives back the same bytes |
| Codec.LocalHeader | packet.py:80-111 | `Header(router_id=n)` with n ≠ 0 is cmd 2, ver 2, src n, and serialises to [2, 2, n high byte, n low byte]; with n = 0 no field is set and serialisation fails |
| Codec.InitTimeout | packet.py:186-196 | clears is_garbage; timeout is None exactly when the entry is imported, otherwise now; every other field is kept |
| Codec.RteFromHost | packet.py:138-184 | a locally built entry has afi 2, tag 0, mask 0, the given address, next hop and metric, is not changed or garbage, and is timed unless imported |
| Codec.SerializeRte | packet.py:209-219 | packing succeeds exactly when the six wire fields fit "!HHIIII", and then gives 20 bytes |
| Codec.RteLayout | packet.py:209-219 | the 20 bytes are afi, tag, addr, mask, next hop, metric, in that order and big-endian |
| Codec.RteRoundTrip | packet.py:159-219 | parsing a serialised entry gives one equal under `__eq__` to the original, with a zero next hop replaced by the sender's id; it is not imported, not changed, not garbage, and timed now |
| Codec.LocalRte | packet.py:175-219 | a locally built entry with 32-bit fields serialises with afi bytes [0, 2], tag [0, 0] and mask [0, 0, 0, 0] |
| Codec.FromNetwork | packet.py:23-45 | the decoding loop over rte_start and rte_end yields exactly `PacketFromNetwork`: an empty datagram and a datagram shorter than 4 bytes are errors |
| Codec.SerializeRtes | packet.py:62-63 | the entries' bytes exist exactly when every entry fits its fields, and then are 20 bytes per entry |
| Codec.SerializePacket | packet.py:55-65 | a packet serialises exactly when its header and all its entries do, and then to 4 + 20·n bytes |
| Codec.Serialize | packet.py:55-65 | the appending loop yields exactly `SerializePacket`, failing at the first entry that cannot be packed |
| Codec.SerializedRteAt | packet.py:62-63 | entry i of the serialised body occupies bytes [20i, 20i + 20) |
| Codec.ParsedRteAt | packet.py:35-45 | decoded entry i is parsed from the i-th 20-byte slice after the header |
| Codec.DecodeShape | packet.py:28-45 | a datagram of at least 4 bytes decodes to its first 4 bytes as header and floor((len − 4) / 20) entries, entry i from bytes [4 + 20i, 24 + 20i) with the header's src as sender |
| Codec.DecodedEntriesFresh | packet.py:138-173 | every decoded entry is not imported, not changed, not garbage, and timed now |
| Codec.TrailingBytesIgnored | packet.py:28-45 | appending fewer than 20 bytes after the last whole entry does not change the decoded packet |
| Codec.PacketRoundTrip | packet.py:23-65 | parsing a serialised packet gives the same header and the same number of entries, each equal under `__eq__` to the original with a zero next hop replaced by the header's src |
| Routing.NeighbourOrder | router.py:83-89 | the dictionary's key order lists each configured neighbour id exactly once, and only those |
| Routing.OutputLinks | router.py:79-89 | configuration succeeds exactly when every output has metric in [1, 16] and port in [1024, 49151], otherwise it fails with the invalid-parameters error; the key order and the stored links have the same ids |
| Routing.ConfigOutputs | router.py:79-89 | the validating loop yields exactly `OutputLinks` |
| Routing.LinkTableKeys | router.py:83-89 | a neighbour is stored exactly when some output names it |
| Routing.LinkTableLastWins | router.py:86-89 | the link stored for an id is the port and metric of the last output naming it |
| Routing.SelfEntry | router.py:55-60 | the router's own entry, built at any clock reading, has metric 0, is imported and untimed, not garbage, not changed |
| Routing.InitialStateValid | router.py:55-60 | the initial table, holding only the self entry, satisfies the router invariant |
| Routing.GarbageIsTimed | router.py:297-306 | in a valid router a garbage entry is not the self entry and has a timeout, so the garbage pass never reads a missing timer |
| Routing.Candidate | router.py:183-185 | the relaxed entry has the sender as next hop and metric min(advertised + link metric, 16), so never above 16; nothing else changes |
| Routing.RelaxStepValid | router.py:186-232 | applying one candidate for another router keeps the router invariant |
| Routing.RelaxValid | router.py:175-220 | applying a whole packet keeps the invariant: metrics stay ≤ 16 and the self entry is untouched |
| Routing.RelaxFails | router.py:175-185 | a packet is rejected exactly when it holds an entry for another router and the header has no src or the sender is not a neighbour; the error says which |
| Routing.NewDestination | router.py:186-197 | an unknown destination below 16 is inserted with the sender as next hop and both change flags set, one of 16 is dropped, and either way the rest of the packet is not read |
| Routing.OtherNeighbour | router.py:218-232 | from another neighbour, a strictly better metric replaces metric and next hop, clears garbage, sets changed and restarts the timer; an equal or worse one changes nothing |
| Routing.FromNextHop | router.py:201-232 | from the current next hop, a differing metric ≥ 16 poisons the entry; any other differing metric is adopted, even a larger one; the same metric only restarts a live entry's timer without a change flag, and does nothing to a garbage entry |
| Routing.StepTwice | router.py:199-220 | applying the same candidate twice changes nothing but timers the second time |
| Routing.RelaxIgnoresTimers | router.py:175-220 | entry timers never steer `update_routing_table`: two tables equal up to timers give outcomes equal up to timers, at any clock readings |
| Routing.RouteTrace | router.py:186-220 | over a packet that inserts nothing, a route not via the sender is untouched unless the packet reaches its destination, a route via the sender stays via the sender, and a route that moved to or along the sender ends changed, garbage exactly at metric 16, with the router flagged |
| Routing.RedeliveryIdempotent | router.py:175-220 | re-delivering any advertisement whose first delivery inserted no new destination, at any later time, is accepted again and changes nothing but timers: no metric, next hop, garbage flag, change flag or key order moves |
| Routing.QuietPass | router.py:186-220 | a packet every reached entry of which the table already absorbs (same next hop and metric, or no better metric from another router, or an unknown destination at 16) is accepted and changes nothing but timers, raising no flag |
| Routing.AbsorbedAfterDelivery | router.py:175-220 | after a delivery that inserted nothing, of a packet naming each destination once, the table absorbs that packet |
| Routing.RedeliveryAfterCollectQuiet | router.py:105-126 | once `handle_inputs` has collected and cleared the flags, re-delivering such a packet is accepted and leaves the router and every entry unflagged, with the same keys and order, so no snapshot is logged and no triggered update is built |
| Routing.RedeliveryOfRepeatedDestinationFlags | router.py:186-220 | a packet naming destination 1 twice (metrics 5 then 7 via 7) flags the route on every delivery, even after the flags were cleared |
| Routing.RedeliveryOfLongerPacketCanChange | router.py:188-197 | because of the early return, re-delivering a two-entry packet inserts a destination that the first delivery never reached |
| Routing.SplitHorizon | router.py:245-256 | the advertised list has the same entries in the same order; an entry learned from the output carries metric 16 with afi 2, tag 0 and mask 0; every other entry is passed on unchanged |
| Routing.ValidatedRtes | router.py:245-256 | the inner loop of update yields exactly `SplitHorizon` |
| Routing.ZeroRouterCannotAdvertise | router.py:241-261 | a router with id 0 never produces a serialisable advertisement |
| Routing.AdvertisementSerialises | router.py:241-261 | a router with a nonzero 16-bit id advertises 4 + 20·n bytes per neighbour when its entries fit their fields |
| Routing.ExpiresExactlyAtTimeout | router.py:288-294 | an entry refreshed at t is untouched before t + 30 and from then on becomes garbage with metric 16, changed, timer restarted |
| Routing.ExpireAllValid | router.py:286-294 | the timeout pass keeps the invariant and never touches the untimed self entry |
| Routing.WithoutSpec | router.py:308-309 | deleting keys keeps exactly the other keys, without repeats |
| Routing.WithoutKeepsOrder | router.py:308-309 | deleting keys keeps the surviving keys in their order: the kept key at index i lands at position \|Without(s[..i], dead)\|, and these positions strictly grow with i |
| Routing.WithoutTwice | router.py:308-309 | deleting two key sets one after the other is deleting their union |
| Routing.CollectGarbageValid | router.py:302-309 | the garbage pass deletes exactly the garbage entries aged 30 s or more, keeps every other entry unchanged, and keeps the invariant |
| Routing.TimeoutPassShieldsGarbage | router.py:286-306 | the timeout pass re-expires garbage entries and restarts their timers, so a garbage pass right after it, at the same instant, deletes nothing |
| Routing.ChangedAlongAddrs | router.py:120-124 | the collected entries are, in table order, the table entries whose flag was set, with the flag cleared |
| Routing.ChangedEntriesExact | router.py:116-126 | the collected list holds exactly the flagged entries, each once, in table order, each with its flag now cleared |
| Routing.ClearFlagsValid | router.py:120-126 | after collection no entry and not the router is flagged, and the invariant holds |
| Routing.ReceiveAllValid | router.py:111-113 | receiving any batch of datagrams keeps the invariant |
| Routing.Router.constructor | router.py:32-60 | a new router holds only the self entry, with the configured id, inputs and links |
| Routing.Router.UpdateRoute | router.py:222-232 | the stored entry gets the candidate's metric and next hop, a restarted timer, no garbage, the changed flag; the router is flagged |
| Routing.Router.ApplyCandidate | router.py:186-220 | the new state and the stop signal are those of `RelaxStep` |
| Routing.Router.UpdateRoutingTable | router.py:170-220 | the router ends in the state `Relax` gives, and stays valid; on a missing src or an unknown sender it fails with that error and the table is unchanged |
| Routing.Router.CollectChanged | router.py:120-126 | returns exactly `ChangedEntries` of the old state and leaves every flag cleared |
| Routing.Router.HandleInputs | router.py:106-126 | applies the datagrams in turn, each cut to 1024 bytes, stopping at the first error; when nothing failed and the table changed, it collects and clears the flags |
| Routing.Router.Update | router.py:234-258 | with no input port it builds nothing; otherwise it builds one packet per neighbour, in dictionary order, addressed to that neighbour's port, with the local header and the split-horizon entries |
| Routing.Router.CheckTimeout | router.py:280-294 | the table becomes `ExpireAll` of the old one, and the router stays valid |
| Routing.Router.CheckIsGarbage | router.py:297-309 | the table becomes `CollectGarbage` of the old one, and the router stays valid |
| Routing.ClearEntries | router.py:120-124 | the flag-collection loop returns `ChangedAlong` and the table with every flag cleared |
| Routing.ExpireEntries | router.py:288-294 | the timeout loop gives exactly `ExpireAll` |
| Routing.GarbageKeys | router.py:303-306 | to_delete lists exactly the keys of collectable entries |
| Routing.DeleteKeys | router.py:308-309 | deleting the listed keys removes exactly those from the table and from the key order |
| Routing.NewRouter | router.py:32-89 | `Router(config)` fails exactly when some output is invalid; otherwise the router is fresh and valid, with the input ports of the configuration, the links of `LinkTable`, the key order of `NeighbourOrder`, and only the self entry |
| Topology.TrimLeftSpec | main.py:48 | `lstrip` removes exactly the leading whitespace |
| Topology.TrimRightSpec | main.py:48 | `rstrip` removes exactly the trailing whitespace |
| Topology.StripSpec | main.py:48 | `strip` keeps one contiguous run whose first and last characters are not whitespace, and cuts only whitespace |
| Topology.StripNoop | main.py:48 | a string that starts and ends with non-whitespace is its own strip |
| Topology.Split | main.py:48 | `split(sep)` gives at least one piece, and no piece holds the separator |
| Topology.JoinSplit | main.py:48 | joining the pieces of a split gives the string back |
| Topology.SplitJoin | main.py:48 | splitting a join of separator-free pieces gives the pieces back |
| Topology.IntStringRoundTrip | main.py:50-52 | `int()` of the decimal rendering of any integer gives it back |
| Topology.ParseAllSpec | main.py:76-77 | a comprehension of converted elements succeeds exactly when every element converts, and then holds the converted elements in order |
| Topology.CheckBlock | main.py:65-71 | a block passes exactly when its lines start with `id:`, `inputs:` and `outputs:` and any fourth line strips to empty; a missing-line error only arises with fewer than 3 lines |
| Topology.OutputTokenRoundTrip | main.py:47-53 | the token `a:b:c` becomes Output(id a, port b, metric c) |
| Topology.IdLineRoundTrip | main.py:75 | a rendered `id:` line reads back as the id |
| Topology.InputsLineRoundTrip | main.py:76 | a rendered `inputs:` line reads back as the input ports, in order |
| Topology.OutputsLineRoundTrip | main.py:77 | a rendered `outputs:` line reads back as the outputs, in order |
| Topology.BlockRoundTrip | main.py:65-80 | a rendered block, whatever follows it, passes the check and parses to its config |
| Topology.BlocksStep | main.py:62-90 | a good first block contributes its config ahead of those of the remaining lines |
| Topology.ReadRouterFile | main.py:44-95 | the source's loop yields exactly `ParseRouterFile` |
| Topology.HeaderRequired | main.py:59-93 | a file is accepted only if its first line strips to `[ROUTERS]` and it has at most 8 routers; a wrong header is a formatting error; more than 8 routers is an error |
| Topology.BlocksShape | main.py:62-90 | the loop succeeds exactly when every block, at lines 0, 4, 8, …, reads well; it then yields one config per block, in file order |
| Topology.ParseBlocksShape | main.py:62-90 | the blocks are accepted exactly when each block at lines 4i passes the check and the parse; there is then one config per block, in file order, config i parsed from lines 4i onward |
| Topology.BlocksRoundTrip | main.py:62-90 | reading rendered blocks gives back the configs in order |
| Topology.RouterFileRoundTrip | main.py:44-95 | a rendered file of up to 8 configurations, each with an input and an output, reads back as the same configurations in the same order |

## Left out

- Sockets are not modelled: `select`, binding, `recvfrom` and `sendto`.
  - The model receives datagrams as byte sequences, cut to 1024 bytes as `recvfrom(1024)` does.
  - `Update` returns the packets with their ports instead of sending them.
- Threads and timers are not modelled: `threading.Timer`, `timer`, `config_timers`, `run` and the thread start/join in main.py.
  - The triggered update that `handle_inputs` builds is never started in the source. The model does not start it either.
- `datetime.now()` is replaced by an integer clock `now`, in seconds, passed to every operation that reads it.
- Logging, `log_routing_table`, `config_io`, `RTE.__repr__`, `Packet.__repr__` and the prints are left out. They are file and console output.
- `config_inputs` opens sockets. Only the set of input ports is kept, because `update` tests whether it is empty.
- Opening and reading `routers.txt` is left out. `ReadRouterFile` takes the file's lines.
- Topology.ParseInt: accepts an optional sign, ASCII decimal digits and surrounding ASCII whitespace. It does not model the rest of Python's `int()` grammar: underscores between digits, non-ASCII digits and non-ASCII whitespace.
- Topology.Strip: removes only the ASCII characters that `str.strip()` removes, not the other Unicode whitespace.
- Router entries are values in a map. A method that changes an entry replaces the map value.
  - Aliasing between the packet's RTE objects and the table's is not modelled.
  - In the source, an entry inserted for a new destination is the packet's own RTE object. So are the objects in `changed_rtes`. The model copies them.
- Routing.RedeliveryAfterCollectQuiet: holds only for packets naming each destination once, the shape `update` sends; `RedeliveryOfRepeatedDestinationFlags` shows that a packet repeating a destination raises flags on every delivery.
- Routing.RedeliveryIdempotent: assumes every stored metric is at most 16, which `ValidState` guarantees for every table the router builds.
- Routing.Router.Update: when serialisation fails, the source aborts the send loop; the model only builds the packets. `ZeroRouterCannotAdvertise` and `AdvertisementSerialises` state when serialisation fails.
- Routing.Router.HandleInputs: `readable_ports` order and blocking are left to the caller, which passes the datagrams in the order they are read.
- The source raises on a failed packet and leaves the router thread. The model returns the error instead, and keeps the state as it was at the failure.
- `Packet(data=...)`/`Packet(header=..., rtes=...)` dispatch and `RTE.set_next_hop` are not separate members. Each is folded into the operation that uses it.
