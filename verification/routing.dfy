/**
 * The routing-table engine of one simulated router (router.py): link
 * configuration, distance-vector relaxation of a received advertisement
 * (after section 3.9.2 of RFC 2453), split horizon with poisoned reverse
 * (section 3.4.3), and the route timeout and garbage-collection timers
 * (section 3.8). The wall clock is an explicit `now`, in seconds.
 */
module Routing {
  import opened Wrappers
  import opened Codec

  const TIMER: int := 5
  const ROUTE_TIMEOUT: int := TIMER * 6
  const DELETE_TIMEOUT: int := TIMER * 6
  /** recvfrom(1024): a longer datagram is cut to this many bytes. */
  const RECV_BUFFER: nat := 1024

  /** One output line of the topology: neighbour id, the neighbour's input port, link metric. */
  datatype Output = Output(id: int, port: int, metric: int)

  datatype RouterConfig = RouterConfig(id: int, inputs: seq<int>, outputs: seq<Output>)

  /** The `{'port', 'metric'}` record stored for a neighbour under its router id. */
  datatype Link = Link(port: int, metric: int)

  datatype RouterError =
    | InvalidOutputParameters   // config_outputs raises
    | MissingSource             // the packet's header has no src field
    | UnknownSender(src: int)   // KeyError: the sender is not a configured neighbour
    | Malformed(reason: DecodeError)

  function Min(a: int, b: int): int { if a < b then a else b }

  // ---------------------------------------------------------------------------
  // config_outputs
  // ---------------------------------------------------------------------------

  predicate ValidOutput(o: Output)
  {
    1 <= o.metric <= 16 && 1024 <= o.port <= 49151
  }

  /** The neighbour dictionary built from the outputs in order: a later duplicate id overwrites. */
  function LinkTable(outs: seq<Output>): map<int, Link>
  {
    if outs == [] then map[]
    else
      var last := outs[|outs| - 1];
      LinkTable(outs[..|outs| - 1])[last.id := Link(last.port, last.metric)]
  }

  /** The neighbour ids in dictionary iteration order: a re-assigned id keeps its first position. */
  function NeighbourOrder(outs: seq<Output>): (ids: seq<int>)
    ensures NoDup(ids)
    ensures forall k :: k in ids <==> exists i :: 0 <= i < |outs| && outs[i].id == k
  {
    if outs == [] then []
    else
      var init := NeighbourOrder(outs[..|outs| - 1]);
      var k := outs[|outs| - 1].id;
      assert forall i :: 0 <= i < |outs| - 1 ==> outs[..|outs| - 1][i] == outs[i];
      if k in init then init else init + [k]
  }

  /** The neighbour dictionary: the link stored under each id, and the ids in iteration order. */
  datatype Neighbours = Neighbours(links: map<int, Link>, ids: seq<int>)

  /**
   * config_outputs: the neighbour dictionary, or an error if any output has
   * bad parameters; the iteration order lists every configured id once.
   */
  function OutputLinks(outs: seq<Output>): (r: Result<Neighbours, RouterError>)
    ensures r.Ok? <==> forall i :: 0 <= i < |outs| ==> ValidOutput(outs[i])
    ensures r.Err? ==> r.error == InvalidOutputParameters
    ensures r.Ok? ==> NoDup(r.value.ids) && forall k :: k in r.value.ids <==> k in r.value.links
  {
    LinkTableKeys(outs);
    if forall i :: 0 <= i < |outs| ==> ValidOutput(outs[i]) then Ok(Neighbours(LinkTable(outs), NeighbourOrder(outs)))
    else Err(InvalidOutputParameters)
  }

  /** config_outputs as the source runs it: validate and store each output in turn. */
  method ConfigOutputs(outs: seq<Output>) returns (r: Result<Neighbours, RouterError>)
    ensures r == OutputLinks(outs)
  {
    var links: map<int, Link> := map[];
    var ids: seq<int> := [];
    var i := 0;
    while i < |outs|
      invariant 0 <= i <= |outs|
      invariant forall j :: 0 <= j < i ==> ValidOutput(outs[j])
      invariant links == LinkTable(outs[..i]) && ids == NeighbourOrder(outs[..i])
    {
      var output := outs[i];
      if !(1 <= output.metric <= 16) || !(1024 <= output.port <= 49151) {
        return Err(InvalidOutputParameters);
      }
      assert outs[..i + 1][..i] == outs[..i];
      links := links[output.id := Link(output.port, output.metric)];
      if output.id !in ids {
        ids := ids + [output.id];
      }
      i := i + 1;
    }
    assert outs[..i] == outs;
    return Ok(Neighbours(links, ids));
  }

  /** A neighbour is configured exactly when some output names it. */
  lemma {:induction false} LinkTableKeys(outs: seq<Output>)
    ensures forall k :: k in LinkTable(outs) <==> exists i :: 0 <= i < |outs| && outs[i].id == k
  {
    if outs != [] {
      var n := |outs|;
      LinkTableKeys(outs[..n - 1]);
      forall k | exists i :: 0 <= i < n && outs[i].id == k
        ensures k in LinkTable(outs)
      {
        var i :| 0 <= i < n && outs[i].id == k;
        if i < n - 1 {
          assert outs[..n - 1][i].id == k;
        }
      }
    }
  }

  /** The stored link is that of the last output naming the neighbour. */
  lemma {:induction false} LinkTableLastWins(outs: seq<Output>, i: nat)
    requires i < |outs|
    requires forall j :: i < j < |outs| ==> outs[j].id != outs[i].id
    ensures outs[i].id in LinkTable(outs)
    ensures LinkTable(outs)[outs[i].id] == Link(outs[i].port, outs[i].metric)
  {
    var n := |outs|;
    if i < n - 1 {
      var init := outs[..n - 1];
      assert init[i] == outs[i];
      assert forall j :: i < j < |init| ==> init[j] == outs[j];
      LinkTableLastWins(init, i);
    }
  }

  // ---------------------------------------------------------------------------
  // Router state
  // ---------------------------------------------------------------------------

  /**
   * The part of a router that changes: the routing table keyed by
   * destination, its keys in dictionary insertion order, and the
   * router-wide changed flag.
   */
  datatype RouterState = RouterState(table: map<int, Rte>, order: seq<int>, changed: bool)

  /** The router's own entry: RTE(address=id, next_hop=0, metric=0, imported=True), whatever the clock. */
  function SelfEntry(id: int): (e: Rte)
    ensures forall now :: RteFromHost(id, 0, 0, true, now) == e
    ensures e.metric == 0 && e.imported && e.timeout.None? && !e.isGarbage && !e.changed
  {
    Rte(AF_INET, 0, id, 0, 0, 0, false, true, false, None)
  }

  function InitialState(id: int): RouterState
  {
    RouterState(map[id := SelfEntry(id)], [id], false)
  }

  predicate NoDup(s: seq<int>)
  {
    forall i, j :: 0 <= i < j < |s| ==> s[i] != s[j]
  }

  /** What holds of every stored entry: keyed by its address, metric capped, and timed unless it is the self entry. */
  predicate EntryOk(selfId: int, k: int, e: Rte)
  {
    e.addr == k && e.metric <= MAX_METRIC && (k != selfId ==> !e.imported && e.timeout.Some?)
  }

  ghost predicate ValidState(st: RouterState, selfId: int)
  {
    && NoDup(st.order)
    && (forall k :: k in st.order <==> k in st.table)
    && selfId in st.table && st.table[selfId] == SelfEntry(selfId)
    && (forall k :: k in st.table ==> EntryOk(selfId, k, st.table[k]))
  }

  lemma InitialStateValid(id: int)
    ensures ValidState(InitialState(id), id)
  {
  }

  /** Only a timed entry can be garbage, so the garbage timer never reads a missing timeout. */
  lemma GarbageIsTimed(st: RouterState, selfId: int, k: int)
    requires ValidState(st, selfId) && k in st.table && st.table[k].isGarbage
    ensures k != selfId && st.table[k].timeout.Some?
  {
  }

  // ---------------------------------------------------------------------------
  // update_routing_table and update_route
  // ---------------------------------------------------------------------------

  /** A received entry as the receiver sees it: next hop the sender, metric advertised + link, capped at 16. */
  function Candidate(e: Rte, src: int, linkMetric: int): (c: Rte)
    ensures c == e.(nextHop := src, metric := c.metric)
    ensures c.metric <= MAX_METRIC && c.metric <= e.metric + linkMetric
    ensures c.metric == MAX_METRIC || c.metric == e.metric + linkMetric
  {
    e.(nextHop := src, metric := Min(e.metric + linkMetric, MAX_METRIC))
  }

  /** update_route: adopt the candidate's metric and next hop, restart the timer, clear garbage, set changed. */
  function UpdatedRoute(cur: Rte, cand: Rte, now: int): (r: Rte)
  {
    InitTimeout(cur, now).(isGarbage := false, changed := true, metric := cand.metric, nextHop := cand.nextHop)
  }

  /** The effect of one candidate on the state; `stop` when the source returns from the whole packet. */
  datatype Step = Step(st: RouterState, stop: bool)

  function RelaxStep(st: RouterState, c: Rte, now: int): Step
  {
    if c.addr !in st.table then
      if c.metric == MAX_METRIC then Step(st, true)
      else Step(RouterState(st.table[c.addr := c.(changed := true)], st.order + [c.addr], true), true)
    else
      var cur := st.table[c.addr];
      if c.nextHop == cur.nextHop then
        if cur.metric != c.metric && c.metric >= MAX_METRIC then
          Step(st.(table := st.table[c.addr := cur.(metric := MAX_METRIC, isGarbage := true, changed := true)],
                   changed := true), false)
        else if cur.metric != c.metric then
          Step(st.(table := st.table[c.addr := UpdatedRoute(cur, c, now)], changed := true), false)
        else if !cur.isGarbage then
          Step(st.(table := st.table[c.addr := InitTimeout(cur, now)]), false)
        else Step(st, false)
      else if c.metric < cur.metric then
        Step(st.(table := st.table[c.addr := UpdatedRoute(cur, c, now)], changed := true), false)
      else Step(st, false)
  }

  /**
   * update_routing_table: the entries of one packet from header `h`, in order,
   * skipping the router's own id. The first non-self entry needs the sender's
   * src and link, so a header without src or an unknown sender fails there.
   */
  function Relax(st: RouterState, selfId: int, links: map<int, Link>, h: Header, es: seq<Rte>, now: int)
    : Result<RouterState, RouterError>
    decreases |es|
  {
    if es == [] then Ok(st)
    else if es[0].addr == selfId then Relax(st, selfId, links, h, es[1..], now)
    else if h.Unset? then Err(MissingSource)
    else if h.src !in links then Err(UnknownSender(h.src))
    else
      var s := RelaxStep(st, Candidate(es[0], h.src, links[h.src].metric), now);
      if s.stop then Ok(s.st) else Relax(s.st, selfId, links, h, es[1..], now)
  }

  /** Entries that came off the wire: not imported, and timed. */
  predicate FromWire(es: seq<Rte>)
  {
    forall e :: e in es ==> !e.imported && e.timeout.Some?
  }

  lemma RelaxStepValid(st: RouterState, selfId: int, c: Rte, now: int)
    requires ValidState(st, selfId)
    requires c.addr != selfId && c.metric <= MAX_METRIC && !c.imported && c.timeout.Some?
    ensures ValidState(RelaxStep(st, c, now).st, selfId)
  {
    var s := RelaxStep(st, c, now).st;
    if c.addr !in st.table && c.metric != MAX_METRIC {
      assert c.addr !in st.order;
      forall i, j | 0 <= i < j < |s.order|
        ensures s.order[i] != s.order[j]
      {
        if j == |st.order| {
          assert st.order[i] in st.order;
        }
      }
    }
  }

  /**
   * Relaxation keeps the router valid: every stored metric stays at or below
   * 16, and the self entry (metric 0, imported, untimed) is never touched.
   */
  lemma {:induction false} RelaxValid(st: RouterState, selfId: int, links: map<int, Link>, h: Header, es: seq<Rte>, now: int)
    requires ValidState(st, selfId) && FromWire(es)
    ensures var r := Relax(st, selfId, links, h, es, now);
            r.Ok? ==> ValidState(r.value, selfId) && r.value.table[selfId] == SelfEntry(selfId) &&
                      forall k :: k in r.value.table ==> r.value.table[k].metric <= MAX_METRIC
    decreases |es|
  {
    if es != [] {
      assert es[0] in es;
      assert FromWire(es[1..]) by {
        forall e | e in es[1..] ensures e in es { }
      }
      if es[0].addr == selfId {
        RelaxValid(st, selfId, links, h, es[1..], now);
      } else if h.Header? && h.src in links {
        var c := Candidate(es[0], h.src, links[h.src].metric);
        RelaxStepValid(st, selfId, c, now);
        var s := RelaxStep(st, c, now);
        if !s.stop {
          RelaxValid(s.st, selfId, links, h, es[1..], now);
        }
      }
    }
  }

  /**
   * The packet is rejected exactly when it holds an entry for another
   * router and the header has no src or the sender is not a neighbour; a
   * rejected packet changes nothing, as the entries before the failing
   * lookup all named the router itself.
   */
  lemma {:induction false} RelaxFails(st: RouterState, selfId: int, links: map<int, Link>, h: Header, es: seq<Rte>, now: int)
    ensures Relax(st, selfId, links, h, es, now).Err? <==>
              (h.Unset? || h.src !in links) && exists i :: 0 <= i < |es| && es[i].addr != selfId
    ensures Relax(st, selfId, links, h, es, now).Err? ==>
              Relax(st, selfId, links, h, es, now).error == if h.Unset? then MissingSource else UnknownSender(h.src)
    decreases |es|
  {
    if es != [] && es[0].addr == selfId {
      RelaxFails(st, selfId, links, h, es[1..], now);
      if exists i :: 0 <= i < |es| && es[i].addr != selfId {
        var i :| 0 <= i < |es| && es[i].addr != selfId;
        assert es[1..][i - 1] == es[i];
      }
      if exists i :: 0 <= i < |es[1..]| && es[1..][i].addr != selfId {
        var i :| 0 <= i < |es[1..]| && es[1..][i].addr != selfId;
        assert es[i + 1].addr != selfId;
      }
    } else if es != [] && h.Header? && h.src in links {
      var s := RelaxStep(st, Candidate(es[0], h.src, links[h.src].metric), now);
      if !s.stop {
        RelaxFails(s.st, selfId, links, h, es[1..], now);
      }
    }
  }

  /**
   * An entry for an unknown destination ends the packet: a candidate below
   * 16 is inserted with next hop the sender and both change flags set, a
   * candidate of 16 is dropped, and the entries after it are never read.
   */
  lemma NewDestination(st: RouterState, selfId: int, links: map<int, Link>, h: Header, e: Rte, rest: seq<Rte>, now: int)
    requires e.addr != selfId && h.Header? && h.src in links && e.addr !in st.table
    ensures var c := Candidate(e, h.src, links[h.src].metric);
            var r := Relax(st, selfId, links, h, [e] + rest, now);
            (c.metric == MAX_METRIC ==> r == Ok(st)) &&
            (c.metric < MAX_METRIC ==>
               r.Ok? && r.value.changed && r.value.order == st.order + [e.addr] &&
               r.value.table == st.table[e.addr := e.(nextHop := h.src, metric := e.metric + links[h.src].metric, changed := true)])
  {
    assert ([e] + rest)[0] == e;
  }

  /**
   * A route heard from a neighbour other than the current next hop: a
   * strictly better metric replaces metric and next hop, clears garbage,
   * sets changed and restarts the timer; an equal or worse one leaves the
   * state untouched. Either way the packet goes on.
   */
  lemma OtherNeighbour(st: RouterState, c: Rte, now: int)
    requires c.addr in st.table && c.nextHop != st.table[c.addr].nextHop && !st.table[c.addr].imported
    ensures var s := RelaxStep(st, c, now);
            !s.stop &&
            (c.metric < st.table[c.addr].metric ==>
               s.st.order == st.order && s.st.changed && s.st.table.Keys == st.table.Keys &&
               (forall k :: k in st.table && k != c.addr ==> s.st.table[k] == st.table[k]) &&
               var n := s.st.table[c.addr];
               n.metric == c.metric && n.nextHop == c.nextHop && !n.isGarbage && n.changed && n.timeout == Some(now) &&
               n.addr == st.table[c.addr].addr) &&
            (c.metric >= st.table[c.addr].metric ==> s.st == st)
  {
  }

  /**
   * A route heard from the current next hop: a differing metric of 16 or
   * more poisons the entry (metric 16, garbage, changed, timer kept); any
   * other differing metric is adopted, even a larger one, restarting the
   * timer; the same metric on a live entry only restarts the timer and sets
   * no change flag; on a garbage entry it does nothing.
   */
  lemma FromNextHop(st: RouterState, c: Rte, now: int)
    requires c.addr in st.table && c.nextHop == st.table[c.addr].nextHop && !st.table[c.addr].imported
    ensures var s := RelaxStep(st, c, now);
            var cur := st.table[c.addr];
            !s.stop && s.st.order == st.order && s.st.table.Keys == st.table.Keys &&
            (forall k :: k in st.table && k != c.addr ==> s.st.table[k] == st.table[k]) &&
            (c.metric != cur.metric && c.metric >= MAX_METRIC ==>
               s.st.changed && s.st.table[c.addr] == cur.(metric := MAX_METRIC, isGarbage := true, changed := true)) &&
            (c.metric != cur.metric && c.metric < MAX_METRIC ==>
               s.st.changed && s.st.table[c.addr].metric == c.metric && s.st.table[c.addr].changed &&
               !s.st.table[c.addr].isGarbage && s.st.table[c.addr].timeout == Some(now)) &&
            (c.metric == cur.metric && !cur.isGarbage ==>
               s.st.changed == st.changed && s.st.table[c.addr] == cur.(timeout := Some(now))) &&
            (c.metric == cur.metric && cur.isGarbage ==> s.st == st)
  {
  }

  /** Two states that differ at most in the entries' timers. */
  predicate SameUpToTimers(a: RouterState, b: RouterState)
  {
    a.order == b.order && a.changed == b.changed && a.table.Keys == b.table.Keys &&
    forall k :: k in a.table ==> a.table[k].(timeout := None) == b.table[k].(timeout := None)
  }

  /** Applying the same candidate a second time changes nothing but timers. */
  lemma StepTwice(st: RouterState, c: Rte, now1: int, now2: int)
    ensures var s1 := RelaxStep(st, c, now1).st;
            SameUpToTimers(s1, RelaxStep(s1, c, now2).st)
  {
    var s1 := RelaxStep(st, c, now1).st;
    var s2 := RelaxStep(s1, c, now2).st;
    if c.addr in s1.table {
      var cur := s1.table[c.addr];
      if cur.nextHop == c.nextHop && cur.metric == c.metric {
        if !cur.isGarbage {
          assert s2 == s1.(table := s1.table[c.addr := InitTimeout(cur, now2)]);
        } else {
          assert s2 == s1;
        }
      } else {
        assert c.addr in st.table;
        var old0 := st.table[c.addr];
        if c.nextHop == old0.nextHop && old0.metric != c.metric && c.metric >= MAX_METRIC {
          assert s2 == s1;
        } else {
          assert s1 == st;
        }
      }
    }
  }

  /** Every stored metric is at most infinity, as `ValidState` guarantees. */
  predicate Capped(st: RouterState)
  {
    forall k :: k in st.table ==> st.table[k].metric <= MAX_METRIC
  }

  /** Outcomes of update_routing_table that agree up to the entries' timers. */
  predicate SameOutcome(r: Result<RouterState, RouterError>, q: Result<RouterState, RouterError>)
  {
    r.Ok? == q.Ok? && (r.Ok? ==> SameUpToTimers(r.value, q.value)) && (r.Err? ==> r.error == q.error)
  }

  lemma SameUpToTimersTrans(a: RouterState, b: RouterState, c: RouterState)
    requires SameUpToTimers(a, b) && SameUpToTimers(b, c)
    ensures SameUpToTimers(a, c) && SameUpToTimers(c, a)
  {
  }

  /** The entry a step writes, and the flag it leaves, depend on the old entry only up to its timer. */
  lemma StepLocal(a: RouterState, b: RouterState, c: Rte, now1: int, now2: int)
    requires c.addr in a.table && c.addr in b.table && a.changed == b.changed
    requires a.table[c.addr].(timeout := None) == b.table[c.addr].(timeout := None)
    ensures RelaxStep(a, c, now1).st.table[c.addr].(timeout := None) == RelaxStep(b, c, now2).st.table[c.addr].(timeout := None)
    ensures RelaxStep(a, c, now1).st.changed == RelaxStep(b, c, now2).st.changed
  {
    var k := c.addr;
    var ca := a.table[k];
    var cb := b.table[k];
    assert ca.nextHop == cb.nextHop && ca.metric == cb.metric && ca.isGarbage == cb.isGarbage;
    var sa := RelaxStep(a, c, now1).st;
    var sb := RelaxStep(b, c, now2).st;
    if c.nextHop == ca.nextHop && ca.metric != c.metric && c.metric < MAX_METRIC {
      assert sa.table[k] == UpdatedRoute(ca, c, now1) && sb.table[k] == UpdatedRoute(cb, c, now2);
    } else if c.nextHop == ca.nextHop && ca.metric == c.metric && !ca.isGarbage {
      assert sa.table[k] == InitTimeout(ca, now1) && sb.table[k] == InitTimeout(cb, now2);
    } else if c.nextHop != ca.nextHop && c.metric < ca.metric {
      assert sa.table[k] == UpdatedRoute(ca, c, now1) && sb.table[k] == UpdatedRoute(cb, c, now2);
    }
  }

  /** Timers never steer relaxation: states equal up to timers stay so, and stop together. */
  lemma StepIgnoresTimers(a: RouterState, b: RouterState, c: Rte, now1: int, now2: int)
    requires SameUpToTimers(a, b)
    ensures RelaxStep(a, c, now1).stop == RelaxStep(b, c, now2).stop
    ensures SameUpToTimers(RelaxStep(a, c, now1).st, RelaxStep(b, c, now2).st)
  {
    var k := c.addr;
    if k in a.table {
      StepLocal(a, b, c, now1, now2);
      StepWrites(a, c, now1);
      StepWrites(b, c, now2);
      var sa := RelaxStep(a, c, now1).st;
      WriteSame(a, b, k, sa.table[k], RelaxStep(b, c, now2).st.table[k], sa.changed);
    }
  }

  /**
   * Processing one packet on two states that agree up to timers gives
   * outcomes that agree up to timers, at whatever clock readings.
   */
  lemma {:induction false} RelaxIgnoresTimers(a: RouterState, b: RouterState, selfId: int, links: map<int, Link>, h: Header,
                                              es: seq<Rte>, now1: int, now2: int)
    requires SameUpToTimers(a, b)
    ensures SameOutcome(Relax(a, selfId, links, h, es, now1), Relax(b, selfId, links, h, es, now2))
    decreases |es|
  {
    if es != [] && es[0].addr == selfId {
      RelaxIgnoresTimers(a, b, selfId, links, h, es[1..], now1, now2);
    } else if es != [] && h.Header? && h.src in links {
      var c := Candidate(es[0], h.src, links[h.src].metric);
      StepIgnoresTimers(a, b, c, now1, now2);
      if !RelaxStep(a, c, now1).stop {
        RelaxIgnoresTimers(RelaxStep(a, c, now1).st, RelaxStep(b, c, now2).st, selfId, links, h, es[1..], now1, now2);
      }
    }
  }

  /**
   * Whether relaxation of `es` reaches an entry for `k`: one for another
   * router before the first entry for a destination outside `keys` (where
   * the source returns).
   */
  function Reaches(keys: set<int>, selfId: int, es: seq<Rte>, k: int): bool
    decreases |es|
  {
    if es == [] then false
    else if es[0].addr == selfId then Reaches(keys, selfId, es[1..], k)
    else if es[0].addr !in keys then false
    else es[0].addr == k || Reaches(keys, selfId, es[1..], k)
  }

  /** A route whose last update set its flags: changed, and garbage exactly at infinity. */
  predicate Settled(e: Rte)
  {
    e.changed && (e.isGarbage <==> e.metric == MAX_METRIC) && e.metric <= MAX_METRIC
  }

  /** The fields of an entry that relaxation never writes, plus its next hop. */
  function Fixed(e: Rte): Rte
  {
    e.(metric := 0, changed := false, isGarbage := false, timeout := None)
  }

  /** The per-entry facts behind `RouteTrace`, for one step on a known destination. */
  lemma StepTrace(s: RouterState, c: Rte, now: int, k: int, n: int)
    requires c.addr in s.table && k in s.table && c.nextHop == n && c.metric <= MAX_METRIC && s.table[k].metric <= MAX_METRIC
    ensures var step := RelaxStep(s, c, now);
            var u := s.table[k];
            var u1 := step.st.table[k];
            && !step.stop && step.st.table.Keys == s.table.Keys
            && (c.addr != k ==> u1 == u)
            && (s.changed ==> step.st.changed)
            && u1.metric <= MAX_METRIC
            && (u1.nextHop != n ==> u1 == u)
            && (u.nextHop == n && Settled(u) ==> Settled(u1))
            && (u1.nextHop == n && (u.nextHop != n || u1.metric != u.metric) ==> Settled(u1) && step.st.changed)
  {
  }

  /**
   * What relaxation of a packet that inserts nothing does to the entry for
   * `k`: a route not via the sender is untouched, a route via the sender
   * stays via the sender, and a route that came to, or moved along, the
   * sender ends settled with the router flagged.
   */
  lemma {:induction false} RouteTrace(s: RouterState, selfId: int, links: map<int, Link>, h: Header, es: seq<Rte>, now: int, k: int)
    requires h.Header? && k in s.table && s.table[k].metric <= MAX_METRIC
    requires Relax(s, selfId, links, h, es, now).Ok?
    requires Relax(s, selfId, links, h, es, now).value.table.Keys == s.table.Keys
    ensures var r := Relax(s, selfId, links, h, es, now).value;
            var u := s.table[k];
            var v := r.table[k];
            && (!Reaches(s.table.Keys, selfId, es, k) ==> v == u)
            && (v.nextHop != h.src ==> v == u)
            && (u.nextHop == h.src && Settled(u) ==> Settled(v))
            && (s.changed ==> r.changed)
            && (v.nextHop == h.src && (u.nextHop != h.src || v.metric != u.metric) ==> Settled(v) && r.changed)
    decreases |es|
  {
    if es == [] {
    } else if es[0].addr == selfId {
      RouteTrace(s, selfId, links, h, es[1..], now, k);
    } else {
      var c := Candidate(es[0], h.src, links[h.src].metric);
      if c.addr !in s.table {
        assert RelaxStep(s, c, now).st == s;
      } else {
        StepTrace(s, c, now, k, h.src);
        RouteTrace(RelaxStep(s, c, now).st, selfId, links, h, es[1..], now, k);
      }
    }
  }

  /** Two states that agree up to timers except at `k`. */
  predicate SameExcept(a: RouterState, b: RouterState, k: int)
  {
    a.order == b.order && a.changed == b.changed && a.table.Keys == b.table.Keys &&
    forall j :: j in a.table && j != k ==> a.table[j].(timeout := None) == b.table[j].(timeout := None)
  }

  /** A step on a known destination rewrites only that entry and, possibly, raises the router's flag. */
  lemma StepWrites(st: RouterState, c: Rte, now: int)
    requires c.addr in st.table
    ensures var st1 := RelaxStep(st, c, now).st;
            && !RelaxStep(st, c, now).stop
            && st1 == st.(table := st.table[c.addr := st1.table[c.addr]], changed := st1.changed)
            && (st.changed ==> st1.changed)
  {
  }

  lemma WriteSame(a: RouterState, b: RouterState, k: int, x: Rte, y: Rte, flag: bool)
    requires SameExcept(a, b, k) && k in a.table && x.(timeout := None) == y.(timeout := None)
    ensures SameUpToTimers(a.(table := a.table[k := x], changed := flag), b.(table := b.table[k := y], changed := flag))
  {
  }

  lemma WriteOther(a: RouterState, b: RouterState, k: int, j: int, x: Rte, y: Rte, flag: bool)
    requires SameExcept(a, b, k) && j in a.table && j != k && x.(timeout := None) == y.(timeout := None)
    ensures SameExcept(a.(table := a.table[j := x], changed := flag), b.(table := b.table[j := y], changed := flag), k)
  {
  }

  /**
   * Two flagged states that differ only in a settled route via the sender
   * for `k` agree up to timers once the packet reaches an entry for `k`:
   * that entry overwrites both routes alike.
   */
  lemma {:induction false} SettledRoutesMeet(a: RouterState, b: RouterState, selfId: int, links: map<int, Link>, h: Header,
                                             es: seq<Rte>, now1: int, now2: int, k: int)
    requires h.Header? && SameExcept(a, b, k) && a.changed && k in a.table
    requires a.table[k].nextHop == h.src && b.table[k].nextHop == h.src
    requires Settled(a.table[k]) && Settled(b.table[k]) && Fixed(a.table[k]) == Fixed(b.table[k])
    requires Reaches(a.table.Keys, selfId, es, k)
    ensures SameOutcome(Relax(a, selfId, links, h, es, now1), Relax(b, selfId, links, h, es, now2))
    decreases |es|
  {
    if es[0].addr == selfId {
      SettledRoutesMeet(a, b, selfId, links, h, es[1..], now1, now2, k);
    } else if h.src in links {
      var c := Candidate(es[0], h.src, links[h.src].metric);
      var sa := RelaxStep(a, c, now1).st;
      var sb := RelaxStep(b, c, now2).st;
      StepWrites(a, c, now1);
      StepWrites(b, c, now2);
      if c.addr == k {
        assert sa.table[k].(timeout := None) == sb.table[k].(timeout := None);
        WriteSame(a, b, k, sa.table[k], sb.table[k], true);
        RelaxIgnoresTimers(sa, sb, selfId, links, h, es[1..], now1, now2);
      } else {
        StepLocal(a, b, c, now1, now2);
        WriteOther(a, b, k, c.addr, sa.table[c.addr], sb.table[c.addr], sa.changed);
        assert sa.table.Keys == a.table.Keys;
        SettledRoutesMeet(sa, sb, selfId, links, h, es[1..], now1, now2, k);
      }
    }
  }

  /** One relaxation step keeps every metric at most infinity. */
  lemma StepCapped(st: RouterState, c: Rte, now: int)
    requires Capped(st) && c.metric <= MAX_METRIC
    ensures Capped(RelaxStep(st, c, now).st)
  {
  }

  /**
   * The head of a re-delivered packet: after the first delivery went on past
   * candidate `c` for a known destination, applying `c` again leads the rest
   * of the packet to the same outcome, up to timers.
   */
  lemma HeadAgain(st: RouterState, selfId: int, links: map<int, Link>, h: Header, rest: seq<Rte>, c: Rte, now1: int, now2: int)
    requires h.Header? && c.nextHop == h.src && c.metric <= MAX_METRIC && c.addr in st.table && Capped(st)
    requires Relax(RelaxStep(st, c, now1).st, selfId, links, h, rest, now1).Ok?
    requires Relax(RelaxStep(st, c, now1).st, selfId, links, h, rest, now1).value.table.Keys == st.table.Keys
    ensures var r1 := Relax(RelaxStep(st, c, now1).st, selfId, links, h, rest, now1).value;
            SameOutcome(Relax(RelaxStep(r1, c, now2).st, selfId, links, h, rest, now2), Relax(r1, selfId, links, h, rest, now2))
  {
    var k := c.addr;
    var s1 := RelaxStep(st, c, now1).st;
    StepWrites(st, c, now1);
    var r1 := Relax(s1, selfId, links, h, rest, now1).value;
    RouteTrace(s1, selfId, links, h, rest, now1, k);
    var t := RelaxStep(r1, c, now2).st;
    StepWrites(r1, c, now2);
    var u := r1.table[k];
    if u.nextHop != h.src || u.metric == c.metric {
      if u.nextHop != h.src {
        assert t == r1;
      } else {
        assert t.table[k].(timeout := None) == u.(timeout := None);
      }
      assert SameUpToTimers(t, r1);
      RelaxIgnoresTimers(t, r1, selfId, links, h, rest, now2, now2);
    } else {
      assert s1.table[k].nextHop == h.src ==> s1.table[k].metric == c.metric;
      assert Settled(u) && r1.changed;
      assert Settled(t.table[k]) && Fixed(t.table[k]) == Fixed(u);
      assert SameExcept(t, r1, k);
      SettledRoutesMeet(t, r1, selfId, links, h, rest, now2, now2, k);
    }
  }

  /**
   * Re-delivering an advertisement whose first delivery inserted no new
   * destination, at any later time, changes nothing but timers: no metric,
   * next hop, garbage or change flag moves, and it is accepted again.
   */
  lemma {:induction false} RedeliveryIdempotent(st: RouterState, selfId: int, links: map<int, Link>, h: Header, es: seq<Rte>,
                                                now1: int, now2: int)
    requires Capped(st)
    requires Relax(st, selfId, links, h, es, now1).Ok?
    requires Relax(st, selfId, links, h, es, now1).value.table.Keys == st.table.Keys
    ensures var r1 := Relax(st, selfId, links, h, es, now1).value;
            var r2 := Relax(r1, selfId, links, h, es, now2);
            r2.Ok? && SameUpToTimers(r1, r2.value)
    decreases |es|
  {
    var r1 := Relax(st, selfId, links, h, es, now1).value;
    if es == [] {
    } else if es[0].addr == selfId {
      RedeliveryIdempotent(st, selfId, links, h, es[1..], now1, now2);
    } else {
      var c := Candidate(es[0], h.src, links[h.src].metric);
      if RelaxStep(st, c, now1).stop {
        assert c.addr !in st.table;
        assert r1 == st;
      } else {
        var s1 := RelaxStep(st, c, now1).st;
        StepWrites(st, c, now1);
        StepCapped(st, c, now1);
        RedeliveryIdempotent(s1, selfId, links, h, es[1..], now1, now2);
        HeadAgain(st, selfId, links, h, es[1..], c, now1, now2);
        var t := RelaxStep(r1, c, now2).st;
        StepWrites(r1, c, now2);
        SameUpToTimersTrans(r1, Relax(r1, selfId, links, h, es[1..], now2).value, Relax(t, selfId, links, h, es[1..], now2).value);
      }
    }
  }

  /** Entries of a packet naming each destination at most once, as `update` builds them from the table. */
  predicate DistinctAddrs(es: seq<Rte>)
  {
    forall i, j :: 0 <= i < j < |es| ==> es[i].addr != es[j].addr
  }

  /** A stored route on which candidate `c` has no effect but a timer refresh. */
  predicate Absorbs(u: Rte, c: Rte)
  {
    if u.nextHop == c.nextHop then u.metric == c.metric else c.metric >= u.metric
  }

  /**
   * Every entry of the packet that relaxation reaches leaves the state as
   * it is, up to timers: a known destination absorbs its candidate, and the
   * entry where the source returns is an unknown destination at infinity.
   */
  predicate Absorbed(q: RouterState, selfId: int, links: map<int, Link>, h: Header, es: seq<Rte>)
    decreases |es|
  {
    if es == [] then true
    else if es[0].addr == selfId then Absorbed(q, selfId, links, h, es[1..])
    else if h.Unset? || h.src !in links then false
    else
      var c := Candidate(es[0], h.src, links[h.src].metric);
      if c.addr !in q.table then c.metric == MAX_METRIC
      else Absorbs(q.table[c.addr], c) && Absorbed(q, selfId, links, h, es[1..])
  }

  /** A packet the state absorbs is accepted and changes nothing but timers; in particular it raises no flag. */
  lemma {:induction false} QuietPass(q: RouterState, p: RouterState, selfId: int, links: map<int, Link>, h: Header,
                                     es: seq<Rte>, now: int)
    requires Absorbed(q, selfId, links, h, es) && SameUpToTimers(q, p)
    ensures Relax(p, selfId, links, h, es, now).Ok?
    ensures SameUpToTimers(q, Relax(p, selfId, links, h, es, now).value)
    decreases |es|
  {
    if es != [] && es[0].addr == selfId {
      QuietPass(q, p, selfId, links, h, es[1..], now);
    } else if es != [] {
      var c := Candidate(es[0], h.src, links[h.src].metric);
      if c.addr in p.table {
        var k := c.addr;
        StepWrites(p, c, now);
        var p1 := RelaxStep(p, c, now).st;
        assert p.table[k].(timeout := None) == q.table[k].(timeout := None);
        assert p1.table[k].(timeout := None) == p.table[k].(timeout := None) && p1.changed == p.changed;
        assert SameUpToTimers(q, p1);
        QuietPass(q, p1, selfId, links, h, es[1..], now);
      }
    }
  }

  /** Whether a state absorbs a packet depends only on its keys, next hops and metrics. */
  lemma {:induction false} AbsorbedIgnoresFlags(q: RouterState, p: RouterState, selfId: int, links: map<int, Link>, h: Header,
                                                es: seq<Rte>)
    requires q.table.Keys == p.table.Keys
    requires forall k :: k in q.table ==> q.table[k].nextHop == p.table[k].nextHop && q.table[k].metric == p.table[k].metric
    requires Absorbed(q, selfId, links, h, es)
    ensures Absorbed(p, selfId, links, h, es)
    decreases |es|
  {
    if es != [] && (es[0].addr == selfId || es[0].addr in q.table) {
      AbsorbedIgnoresFlags(q, p, selfId, links, h, es[1..]);
    }
  }

  /** The entry a step writes absorbs the candidate that wrote it. */
  lemma StepAbsorbs(st: RouterState, c: Rte, now: int)
    requires c.addr in st.table && c.metric <= MAX_METRIC
    ensures Absorbs(RelaxStep(st, c, now).st.table[c.addr], c)
  {
  }

  lemma {:induction false} NotReached(keys: set<int>, selfId: int, es: seq<Rte>, k: int)
    requires forall i :: 0 <= i < |es| ==> es[i].addr != k
    ensures !Reaches(keys, selfId, es, k)
    decreases |es|
  {
    if es != [] {
      NotReached(keys, selfId, es[1..], k);
    }
  }

  /**
   * After a delivery that inserted nothing, of a packet naming each
   * destination once, the table absorbs that packet.
   */
  lemma {:induction false} AbsorbedAfterDelivery(st: RouterState, selfId: int, links: map<int, Link>, h: Header,
                                                 es: seq<Rte>, now: int)
    requires Capped(st) && DistinctAddrs(es)
    requires Relax(st, selfId, links, h, es, now).Ok?
    requires Relax(st, selfId, links, h, es, now).value.table.Keys == st.table.Keys
    ensures Absorbed(Relax(st, selfId, links, h, es, now).value, selfId, links, h, es)
    decreases |es|
  {
    var r1 := Relax(st, selfId, links, h, es, now).value;
    if es != [] && es[0].addr == selfId {
      AbsorbedAfterDelivery(st, selfId, links, h, es[1..], now);
    } else if es != [] {
      var c := Candidate(es[0], h.src, links[h.src].metric);
      if RelaxStep(st, c, now).stop {
        assert c.addr !in st.table;
        assert r1 == st;
      } else {
        var k := c.addr;
        var s1 := RelaxStep(st, c, now).st;
        StepWrites(st, c, now);
        StepCapped(st, c, now);
        StepAbsorbs(st, c, now);
        var rest := es[1..];
        assert forall i :: 0 <= i < |rest| ==> rest[i].addr != k by {
          forall i | 0 <= i < |rest| ensures rest[i].addr != k {
            assert rest[i] == es[i + 1];
          }
        }
        assert DistinctAddrs(rest) by {
          forall i, j | 0 <= i < j < |rest| ensures rest[i].addr != rest[j].addr {
            assert rest[i] == es[i + 1] && rest[j] == es[j + 1];
          }
        }
        AbsorbedAfterDelivery(s1, selfId, links, h, rest, now);
        NotReached(s1.table.Keys, selfId, rest, k);
        RouteTrace(s1, selfId, links, h, rest, now, k);
        assert r1.table[k] == s1.table[k];
      }
    }
  }

  /**
   * Re-delivering, after `handle_inputs` collected and cleared the flags,
   * an advertisement that names each destination once and whose first
   * delivery inserted nothing: it is accepted and raises no flag, so the
   * router logs no new snapshot and builds no triggered update.
   */
  lemma RedeliveryAfterCollectQuiet(st: RouterState, selfId: int, links: map<int, Link>, h: Header, es: seq<Rte>,
                                    now1: int, now2: int)
    requires Capped(st) && DistinctAddrs(es)
    requires Relax(st, selfId, links, h, es, now1).Ok?
    requires Relax(st, selfId, links, h, es, now1).value.table.Keys == st.table.Keys
    ensures var r1 := Relax(st, selfId, links, h, es, now1).value;
            var q := Relax(ClearFlags(r1), selfId, links, h, es, now2);
            && q.Ok? && !q.value.changed
            && (forall k :: k in q.value.table ==> !q.value.table[k].changed)
            && q.value.table.Keys == r1.table.Keys && q.value.order == r1.order
  {
    var r1 := Relax(st, selfId, links, h, es, now1).value;
    AbsorbedAfterDelivery(st, selfId, links, h, es, now1);
    AbsorbedIgnoresFlags(r1, ClearFlags(r1), selfId, links, h, es);
    QuietPass(ClearFlags(r1), ClearFlags(r1), selfId, links, h, es, now2);
    var q := Relax(ClearFlags(r1), selfId, links, h, es, now2).value;
    forall k | k in q.table
      ensures !q.table[k].changed
    {
      assert ClearFlags(r1).table[k].(timeout := None) == q.table[k].(timeout := None);
    }
  }

  /**
   * A packet naming a destination twice raises flags on every delivery: the
   * route via 7 at metric 7 is moved to 5 and back to 7 each time.
   */
  lemma RedeliveryOfRepeatedDestinationFlags()
    ensures var links := map[7 := Link(5000, 1)];
            var h := Header(COMMAND_RESPONSE, VERSION, 7);
            var st := RouterState(map[0 := SelfEntry(0), 1 := RteFromHost(1, 7, 3, false, 0)], [0, 1], false);
            var es := [RteFromHost(1, 7, 4, false, 0), RteFromHost(1, 7, 6, false, 0)];
            var r1 := Relax(st, 0, links, h, es, 0);
            && r1.Ok? && r1.value.table.Keys == st.table.Keys && r1.value.table[1].metric == 7
            && var q := Relax(ClearFlags(r1.value), 0, links, h, es, 0);
               q.Ok? && q.value.changed && q.value.table[1].changed && q.value.table[1].metric == 7
  {
    var links := map[7 := Link(5000, 1)];
    var h := Header(COMMAND_RESPONSE, VERSION, 7);
    var st := RouterState(map[0 := SelfEntry(0), 1 := RteFromHost(1, 7, 3, false, 0)], [0, 1], false);
    var es := [RteFromHost(1, 7, 4, false, 0), RteFromHost(1, 7, 6, false, 0)];
    assert es[1..][1..] == [];
    var s1 := RelaxStep(st, Candidate(es[0], 7, 1), 0).st;
    assert s1.table[1].metric == 5;
    var r1 := RelaxStep(s1, Candidate(es[1], 7, 1), 0).st;
    assert r1.table[1].metric == 7;
    assert Relax(st, 0, links, h, es, 0) == Ok(r1);
    var c0 := ClearFlags(r1);
    var q1 := RelaxStep(c0, Candidate(es[0], 7, 1), 0).st;
    assert q1.table[1].metric == 5;
    var q2 := RelaxStep(q1, Candidate(es[1], 7, 1), 0).st;
    assert Relax(c0, 0, links, h, es, 0) == Ok(q2);
  }

  /**
   * The source's early return makes redelivery of a longer packet change
   * the table: the first delivery stops at the new destination 1, the second
   * reaches destination 2 behind it.
   */
  lemma RedeliveryOfLongerPacketCanChange()
    ensures var links := map[7 := Link(5000, 1)];
            var h := Header(COMMAND_RESPONSE, VERSION, 7);
            var e1 := RteFromHost(1, 7, 1, false, 0);
            var e2 := RteFromHost(2, 7, 1, false, 0);
            var r1 := Relax(InitialState(0), 0, links, h, [e1, e2], 0);
            r1.Ok? && 2 !in r1.value.table &&
            var r2 := Relax(r1.value, 0, links, h, [e1, e2], 0);
            r2.Ok? && 2 in r2.value.table
  {
    var links := map[7 := Link(5000, 1)];
    var h := Header(COMMAND_RESPONSE, VERSION, 7);
    var e1 := RteFromHost(1, 7, 1, false, 0);
    var e2 := RteFromHost(2, 7, 1, false, 0);
    var es := [e1, e2];
    assert es[1..] == [e2];
    var r1 := Relax(InitialState(0), 0, links, h, es, 0);
    assert r1.Ok? && 2 !in r1.value.table;
    assert r1.value.table[1].nextHop == 7 && r1.value.table[1].metric == 2;
  }

  // ---------------------------------------------------------------------------
  // update: split horizon with poisoned reverse
  // ---------------------------------------------------------------------------

  /** The entry as advertised to `output`: poisoned (a fresh local entry with metric 16) if learned from it. */
  function Poisoned(e: Rte, output: int, now: int): Rte
  {
    if e.nextHop != output then e else RteFromHost(e.addr, e.nextHop, MAX_METRIC, e.imported, now)
  }

  /**
   * The entries advertised to neighbour `output`: the same entries in the same
   * order; those whose next hop is that neighbour carry metric 16 (with afi 2,
   * tag 0 and mask 0, as a locally built entry has); every other entry is
   * passed on unchanged.
   */
  function SplitHorizon(rtes: seq<Rte>, output: int, now: int): (r: seq<Rte>)
    ensures |r| == |rtes|
    ensures forall i :: 0 <= i < |rtes| ==>
              r[i].addr == rtes[i].addr && r[i].nextHop == rtes[i].nextHop && r[i].imported == rtes[i].imported
    ensures forall i :: 0 <= i < |rtes| && rtes[i].nextHop == output ==>
              r[i].metric == MAX_METRIC && r[i].afi == AF_INET && r[i].tag == 0 && r[i].mask == 0
    ensures forall i :: 0 <= i < |rtes| && rtes[i].nextHop != output ==> r[i] == rtes[i]
  {
    if rtes == [] then []
    else SplitHorizon(rtes[..|rtes| - 1], output, now) + [Poisoned(rtes[|rtes| - 1], output, now)]
  }

  /** The inner loop of update: build validated_rtes for one output. */
  method ValidatedRtes(rtes: seq<Rte>, output: int, now: int) returns (validated: seq<Rte>)
    ensures validated == SplitHorizon(rtes, output, now)
  {
    validated := [];
    var i := 0;
    while i < |rtes|
      invariant 0 <= i <= |rtes|
      invariant validated == SplitHorizon(rtes[..i], output, now)
    {
      var entry := rtes[i];
      assert rtes[..i + 1][..i] == rtes[..i];
      if entry.nextHop != output {
        validated := validated + [entry];
      } else {
        validated := validated + [RteFromHost(entry.addr, entry.nextHop, MAX_METRIC, entry.imported, now)];
      }
      i := i + 1;
    }
    assert rtes[..i] == rtes;
  }

  /** What update hands to the socket for one neighbour: its port and the packet. */
  datatype Datagram = Datagram(port: int, packet: Packet)

  /** A router with id 0 builds headers without fields, so none of its advertisements can be serialised. */
  lemma ZeroRouterCannotAdvertise(rtes: seq<Rte>, output: int, now: int)
    ensures SerializePacket(Packet(HeaderFromHost(0), SplitHorizon(rtes, output, now))).None?
  {
  }

  /**
   * Any other router whose id fits the 16-bit src field and whose entries fit
   * their fields advertises 4 + 20n bytes to each neighbour, one entry per
   * entry handed to update.
   */
  lemma AdvertisementSerialises(id: int, rtes: seq<Rte>, output: int, now: int)
    requires id != 0 && IsU16(id)
    requires forall i :: 0 <= i < |rtes| ==> RteInRange(rtes[i])
    ensures var w := SerializePacket(Packet(HeaderFromHost(id), SplitHorizon(rtes, output, now)));
            w.Some? && |w.value| == HEADER_SIZE + RTE_SIZE * |rtes|
  {
    var r := SplitHorizon(rtes, output, now);
    forall i | 0 <= i < |r|
      ensures RteInRange(r[i])
    {
      assert RteInRange(rtes[i]);
    }
  }

  // ---------------------------------------------------------------------------
  // check_timeout and check_is_garbage
  // ---------------------------------------------------------------------------

  predicate TimedOut(e: Rte, now: int)
  {
    e.timeout.Some? && now - e.timeout.value >= ROUTE_TIMEOUT
  }

  /** check_timeout on one entry: a timed entry aged ROUTE_TIMEOUT or more becomes garbage at metric 16. */
  function Expire(e: Rte, now: int): Rte
  {
    if TimedOut(e, now) then e.(isGarbage := true, changed := true, metric := MAX_METRIC, timeout := Some(now))
    else e
  }

  function ExpireAll(st: RouterState, now: int): RouterState
  {
    RouterState(map k | k in st.table :: Expire(st.table[k], now), st.order,
                st.changed || exists k :: k in st.table && TimedOut(st.table[k], now))
  }

  /** An entry refreshed at time t is left alone before t + ROUTE_TIMEOUT and expires from then on. */
  lemma ExpiresExactlyAtTimeout(e: Rte, t: int, now: int)
    requires e.timeout == Some(t)
    ensures Expire(e, now) == e <==> now < t + ROUTE_TIMEOUT
    ensures now >= t + ROUTE_TIMEOUT ==>
              var x := Expire(e, now);
              x.isGarbage && x.changed && x.metric == MAX_METRIC && x.timeout == Some(now)
  {
  }

  /** The timeout pass keeps the router valid; in particular the untimed self entry never expires. */
  lemma ExpireAllValid(st: RouterState, selfId: int, now: int)
    requires ValidState(st, selfId)
    ensures ValidState(ExpireAll(st, now), selfId)
    ensures ExpireAll(st, now).table[selfId] == SelfEntry(selfId)
  {
  }

  predicate Collectable(e: Rte, now: int)
  {
    e.isGarbage && e.timeout.Some? && now - e.timeout.value >= DELETE_TIMEOUT
  }

  function Dead(st: RouterState, now: int): set<int>
  {
    set k | k in st.table && Collectable(st.table[k], now)
  }

  /** The keys of `s` that are not in `dead`, in their order. */
  function Without(s: seq<int>, dead: set<int>): seq<int>
  {
    if s == [] then []
    else
      var init := Without(s[..|s| - 1], dead);
      var last := s[|s| - 1];
      if last in dead then init else init + [last]
  }

  /** Filtering keeps exactly the keys outside `dead`, and a key list without repeats stays so. */
  lemma {:induction false} WithoutSpec(s: seq<int>, dead: set<int>)
    ensures forall x :: x in Without(s, dead) <==> x in s && x !in dead
    ensures NoDup(s) ==> NoDup(Without(s, dead))
  {
    if s != [] {
      var init := s[..|s| - 1];
      var last := s[|s| - 1];
      WithoutSpec(init, dead);
      assert forall x :: x in s <==> x in init || x == last;
      assert NoDup(s) ==> NoDup(init) && last !in init;
    }
  }

  /** Filtering a prefix of the key list gives a prefix of the filtered list. */
  lemma {:induction false} WithoutPrefix(s: seq<int>, dead: set<int>, i: nat)
    requires i <= |s|
    ensures Without(s[..i], dead) <= Without(s, dead)
    decreases |s|
  {
    if i < |s| {
      var init := s[..|s| - 1];
      assert s[..i] == init[..i];
      WithoutPrefix(init, dead, i);
    } else {
      assert s[..i] == s;
    }
  }

  /** Filtering one more key of the list appends it when it survives. */
  lemma WithoutSnoc(s: seq<int>, dead: set<int>, i: nat)
    requires i < |s|
    ensures Without(s[..i + 1], dead) == Without(s[..i], dead) + (if s[i] in dead then [] else [s[i]])
  {
    assert s[..i + 1][..i] == s[..i];
  }

  /** The kept key at index i lands at position |Without(s[..i], dead)|. */
  lemma WithoutKeptAt(s: seq<int>, dead: set<int>, i: nat)
    requires i < |s| && s[i] !in dead
    ensures |Without(s[..i], dead)| < |Without(s, dead)| && Without(s, dead)[|Without(s[..i], dead)|] == s[i]
  {
    WithoutSnoc(s, dead, i);
    WithoutPrefix(s, dead, i + 1);
  }

  /** A later prefix filters to a strictly longer list once it passes a kept key. */
  lemma WithoutGrows(s: seq<int>, dead: set<int>, i: nat, j: nat)
    requires i < j <= |s| && s[i] !in dead
    ensures |Without(s[..i], dead)| < |Without(s[..j], dead)|
  {
    WithoutSnoc(s, dead, i);
    assert s[..j][..i + 1] == s[..i + 1];
    WithoutPrefix(s[..j], dead, i + 1);
  }

  /**
   * `del` keeps the surviving keys in their order: the kept key at index i
   * lands at position |Without(s[..i], dead)|, and those positions grow with i.
   */
  lemma WithoutKeepsOrder(s: seq<int>, dead: set<int>)
    ensures forall i :: 0 <= i < |s| && s[i] !in dead ==>
              |Without(s[..i], dead)| < |Without(s, dead)| && Without(s, dead)[|Without(s[..i], dead)|] == s[i]
    ensures forall i, j :: 0 <= i < j <= |s| && s[i] !in dead ==> |Without(s[..i], dead)| < |Without(s[..j], dead)|
  {
    forall i | 0 <= i < |s| && s[i] !in dead
      ensures |Without(s[..i], dead)| < |Without(s, dead)| && Without(s, dead)[|Without(s[..i], dead)|] == s[i]
    {
      WithoutKeptAt(s, dead, i);
    }
    forall i, j | 0 <= i < j <= |s| && s[i] !in dead
      ensures |Without(s[..i], dead)| < |Without(s[..j], dead)|
    {
      WithoutGrows(s, dead, i, j);
    }
  }

  lemma {:induction false} WithoutEmpty(s: seq<int>)
    ensures Without(s, {}) == s
  {
    if s != [] {
      WithoutEmpty(s[..|s| - 1]);
    }
  }

  lemma {:induction false} WithoutTwice(s: seq<int>, a: set<int>, b: set<int>)
    ensures Without(Without(s, a), b) == Without(s, a + b)
  {
    if s != [] {
      WithoutTwice(s[..|s| - 1], a, b);
      var init := Without(s[..|s| - 1], a);
      var last := s[|s| - 1];
      if last !in a {
        assert Without(s, a) == init + [last];
        assert (init + [last])[..|init + [last]| - 1] == init;
      }
    }
  }

  /** check_is_garbage: delete every garbage entry whose timer has run DELETE_TIMEOUT. */
  function CollectGarbage(st: RouterState, now: int): RouterState
  {
    var dead := Dead(st, now);
    RouterState(st.table - dead, Without(st.order, dead), st.changed)
  }

  /**
   * Garbage collection deletes exactly the garbage entries aged
   * DELETE_TIMEOUT or more, keeps every other entry as it was, and keeps
   * the router valid (the self entry is never garbage).
   */
  lemma CollectGarbageValid(st: RouterState, selfId: int, now: int)
    requires ValidState(st, selfId)
    ensures var g := CollectGarbage(st, now);
            ValidState(g, selfId) &&
            (forall k :: k in g.table <==> k in st.table && !Collectable(st.table[k], now)) &&
            (forall k :: k in g.table ==> g.table[k] == st.table[k])
  {
    WithoutSpec(st.order, Dead(st, now));
  }

  /**
   * check_timeout re-expires garbage entries too, restarting their timer, so
   * when both passes run at the same instant with the timeout pass first
   * (the order in which the source starts their timers), nothing is deleted.
   */
  lemma TimeoutPassShieldsGarbage(st: RouterState, now: int)
    ensures CollectGarbage(ExpireAll(st, now), now) == ExpireAll(st, now)
  {
    var x := ExpireAll(st, now);
    forall k | k in x.table
      ensures !Collectable(x.table[k], now)
    {
      assert x.table[k] == Expire(st.table[k], now);
    }
    assert forall k :: k !in Dead(x, now);
    assert Dead(x, now) == {};
    WithoutEmpty(x.order);
    assert x.table - {} == x.table;
  }

  // ---------------------------------------------------------------------------
  // handle_inputs: receive, relax, collect the changed entries
  // ---------------------------------------------------------------------------

  /** The changed entries along `order`, each with its flag cleared (the list aliases the table's objects). */
  function ChangedAlong(order: seq<int>, table: map<int, Rte>): seq<Rte>
  {
    if order == [] then []
    else
      var k := order[|order| - 1];
      ChangedAlong(order[..|order| - 1], table) +
        (if k in table && table[k].changed then [table[k].(changed := false)] else [])
  }

  function ChangedEntries(st: RouterState): seq<Rte>
  {
    ChangedAlong(st.order, st.table)
  }

  function ClearFlags(st: RouterState): RouterState
  {
    RouterState(map k | k in st.table :: st.table[k].(changed := false), st.order, false)
  }

  function Unchanged(st: RouterState): set<int>
  {
    set k | k in st.table && !st.table[k].changed
  }

  function Addrs(es: seq<Rte>): (r: seq<int>)
    ensures |r| == |es| && forall i :: 0 <= i < |es| ==> r[i] == es[i].addr
  {
    if es == [] then [] else Addrs(es[..|es| - 1]) + [es[|es| - 1].addr]
  }

  lemma {:induction false} ChangedAlongAddrs(order: seq<int>, table: map<int, Rte>)
    requires forall k :: k in order ==> k in table && table[k].addr == k
    ensures Addrs(ChangedAlong(order, table)) == Without(order, set k | k in table && !table[k].changed)
    ensures forall e :: e in ChangedAlong(order, table) ==> e.addr in table && e == table[e.addr].(changed := false)
  {
    if order != [] {
      var init := order[..|order| - 1];
      assert forall k :: k in init ==> k in order;
      ChangedAlongAddrs(init, table);
      var k := order[|order| - 1];
      assert k in order;
      var a := ChangedAlong(init, table);
      if table[k].changed {
        var b := a + [table[k].(changed := false)];
        assert b[..|b| - 1] == a;
      }
    }
  }

  /**
   * The collected list holds exactly the entries whose changed flag was set,
   * each once, in table order, as the table's entries with the flag now
   * cleared; afterwards no flag is set and the router is still valid.
   */
  lemma ChangedEntriesExact(st: RouterState, selfId: int)
    requires ValidState(st, selfId)
    ensures Addrs(ChangedEntries(st)) == Without(st.order, Unchanged(st))
    ensures forall e :: e in ChangedEntries(st) ==> e.addr in st.table && st.table[e.addr].changed && e == st.table[e.addr].(changed := false)
    ensures forall k :: k in st.table && st.table[k].changed ==> k in Addrs(ChangedEntries(st))
  {
    ChangedAlongAddrs(st.order, st.table);
    WithoutSpec(st.order, Unchanged(st));
    var r := ChangedEntries(st);
    forall e | e in r
      ensures st.table[e.addr].changed
    {
      var i :| 0 <= i < |r| && r[i] == e;
      assert Addrs(r)[i] == e.addr;
      assert e.addr in Addrs(r);
    }
  }

  /** Clearing the flags keeps the router valid and leaves no flag set. */
  lemma ClearFlagsValid(st: RouterState, selfId: int)
    requires ValidState(st, selfId)
    ensures ValidState(ClearFlags(st), selfId) && !ClearFlags(st).changed
    ensures forall k :: k in ClearFlags(st).table ==> !ClearFlags(st).table[k].changed
  {
  }

  /** recvfrom(1024) cuts a longer datagram. */
  function Truncate(d: seq<Byte>): seq<Byte>
  {
    if |d| > RECV_BUFFER then d[..RECV_BUFFER] else d
  }

  /** The state after a batch of datagrams, and the error that stopped it, if any. */
  datatype Received = Received(st: RouterState, failure: Option<RouterError>)

  function ReceiveAll(st: RouterState, selfId: int, links: map<int, Link>, datagrams: seq<seq<Byte>>, now: int): Received
    decreases |datagrams|
  {
    if datagrams == [] then Received(st, None)
    else
      match PacketFromNetwork(Truncate(datagrams[0]), now)
      case Err(e) => Received(st, Some(Malformed(e)))
      case Ok(p) =>
        match Relax(st, selfId, links, p.header, p.rtes, now)
        case Err(e) => Received(st, Some(e))
        case Ok(s) => ReceiveAll(s, selfId, links, datagrams[1..], now)
  }

  lemma {:induction false} ReceiveAllValid(st: RouterState, selfId: int, links: map<int, Link>, datagrams: seq<seq<Byte>>, now: int)
    requires ValidState(st, selfId)
    ensures ValidState(ReceiveAll(st, selfId, links, datagrams, now).st, selfId)
    decreases |datagrams|
  {
    if datagrams != [] {
      var d := Truncate(datagrams[0]);
      if PacketFromNetwork(d, now).Ok? {
        var p := PacketFromNetwork(d, now).value;
        DecodedEntriesFresh(d, now);
        RelaxValid(st, selfId, links, p.header, p.rtes, now);
        var r := Relax(st, selfId, links, p.header, p.rtes, now);
        if r.Ok? {
          ReceiveAllValid(r.value, selfId, links, datagrams[1..], now);
        }
      }
    }
  }

  // ---------------------------------------------------------------------------
  // The router object
  // ---------------------------------------------------------------------------

  class Router {
    const id: int
    /** The configured input ports (the keys of the socket dictionary). */
    const inputs: set<int>
    /** Neighbour id to link, as config_outputs stored it. */
    const outputs: map<int, Link>
    /** The neighbour ids in the dictionary's iteration order. */
    const neighbours: seq<int>
    var table: map<int, Rte>
    /** The table's keys in dictionary insertion order. */
    var order: seq<int>
    var changed: bool

    ghost function State(): RouterState
      reads this
    {
      RouterState(table, order, changed)
    }

    ghost predicate Valid()
      reads this
    {
      ValidState(State(), id)
    }

    /** Every neighbour id in the iteration order has a stored link, and every stored link is listed. */
    predicate Wired()
    {
      (forall i :: 0 <= i < |neighbours| ==> neighbours[i] in outputs) && (forall k :: k in outputs ==> k in neighbours)
    }

    /** __init__ after config_outputs succeeded: the table holds only the self entry. */
    constructor (config: RouterConfig, n: Neighbours)
      requires OutputLinks(config.outputs) == Ok(n)
      ensures Valid() && Wired()
      ensures id == config.id && inputs == (set p | p in config.inputs)
      ensures outputs == n.links && neighbours == n.ids
      ensures State() == InitialState(config.id)
    {
      id := config.id;
      inputs := set p | p in config.inputs;
      outputs := n.links;
      neighbours := n.ids;
      table := map[config.id := RteFromHost(config.id, 0, 0, true, 0)];
      order := [config.id];
      changed := false;
    }

    /** update_route on the stored entry for `cand.addr`. */
    method UpdateRoute(cand: Rte, now: int)
      requires cand.addr in table
      modifies this
      ensures table == old(table)[cand.addr := UpdatedRoute(old(table)[cand.addr], cand, now)]
      ensures order == old(order) && changed
    {
      var current := table[cand.addr];
      current := InitTimeout(current, now);
      current := current.(isGarbage := false, changed := true, metric := cand.metric, nextHop := cand.nextHop);
      table := table[cand.addr := current];
      changed := true;
    }

    /**
     * The body of update_routing_table's loop for one entry for another
     * router, once the entry has become a candidate; `stop` when the source
     * returns from the whole packet.
     */
    method ApplyCandidate(rte: Rte, now: int) returns (stop: bool)
      modifies this
      ensures State() == RelaxStep(old(State()), rte, now).st
      ensures stop == RelaxStep(old(State()), rte, now).stop
    {
      if rte.addr !in table {
        if rte.metric == MAX_METRIC {
          return true;
        }
        changed := true;
        table := table[rte.addr := rte.(changed := true)];
        order := order + [rte.addr];
        return true;
      }
      var current := table[rte.addr];
      if rte.nextHop == current.nextHop {
        if current.metric != rte.metric && rte.metric >= MAX_METRIC {
          table := table[rte.addr := current.(metric := MAX_METRIC, isGarbage := true, changed := true)];
          changed := true;
        } else if current.metric != rte.metric {
          UpdateRoute(rte, now);
        } else if !current.isGarbage {
          table := table[rte.addr := InitTimeout(current, now)];
        }
      } else if rte.metric < current.metric {
        UpdateRoute(rte, now);
      }
      return false;
    }

    /** update_routing_table: apply one received packet. */
    method UpdateRoutingTable(packet: Packet, now: int) returns (status: Outcome<RouterError>)
      requires Valid() && FromWire(packet.rtes)
      modifies this
      ensures Valid()
      ensures var r := Relax(old(State()), id, outputs, packet.header, packet.rtes, now);
              if r.Ok? then status.Pass? && State() == r.value
              else status == Fail(r.error) && State() == old(State())
    {
      var i := 0;
      while i < |packet.rtes|
        invariant 0 <= i <= |packet.rtes|
        invariant Valid()
        invariant Relax(old(State()), id, outputs, packet.header, packet.rtes, now)
               == Relax(State(), id, outputs, packet.header, packet.rtes[i..], now)
        invariant (packet.header.Unset? || packet.header.src !in outputs) ==> State() == old(State())
      {
        var rte := packet.rtes[i];
        assert packet.rtes[i..][0] == rte && packet.rtes[i..][1..] == packet.rtes[i + 1..];
        if rte.addr != id {
          if packet.header.Unset? {
            return Fail(MissingSource);
          }
          var src := packet.header.src;
          if src !in outputs {
            return Fail(UnknownSender(src));
          }
          rte := rte.(nextHop := src);
          rte := rte.(metric := Min(rte.metric + outputs[src].metric, MAX_METRIC));
          assert rte == Candidate(packet.rtes[i], src, outputs[src].metric);
          assert packet.rtes[i] in packet.rtes;
          RelaxStepValid(State(), id, rte, now);
          var stop := ApplyCandidate(rte, now);
          if stop {
            return Pass;
          }
        }
        i := i + 1;
      }
      return Pass;
    }

    /** The flag-collection step of handle_inputs: gather the changed entries and clear every flag. */
    method CollectChanged() returns (changedRtes: seq<Rte>)
      requires Valid()
      modifies this
      ensures Valid()
      ensures changedRtes == ChangedEntries(old(State())) && State() == ClearFlags(old(State()))
    {
      ClearFlagsValid(State(), id);
      assert forall j :: 0 <= j < |order| ==> order[j] in table by {
        forall j | 0 <= j < |order| ensures order[j] in table { assert order[j] in order; }
      }
      table, changedRtes := ClearEntries(table, order);
      changed := false;
    }

    /**
     * handle_inputs: apply each received datagram in turn, stopping at the
     * first that raises; then, if the table changed, collect and clear the
     * change flags. (Logging and the never-started triggered update are not
     * part of the model.)
     */
    method HandleInputs(datagrams: seq<seq<Byte>>, now: int) returns (failure: Option<RouterError>, changedRtes: seq<Rte>)
      requires Valid()
      modifies this
      ensures Valid()
      ensures var r := ReceiveAll(old(State()), id, outputs, datagrams, now);
              failure == r.failure &&
              if r.failure.None? && r.st.changed then State() == ClearFlags(r.st) && changedRtes == ChangedEntries(r.st)
              else State() == r.st && changedRtes == []
    {
      var i := 0;
      while i < |datagrams|
        invariant 0 <= i <= |datagrams| && Valid()
        invariant ReceiveAll(old(State()), id, outputs, datagrams, now)
               == ReceiveAll(State(), id, outputs, datagrams[i..], now)
      {
        assert datagrams[i..][0] == datagrams[i] && datagrams[i..][1..] == datagrams[i + 1..];
        var packet := FromNetwork(Truncate(datagrams[i]), now);
        if packet.Err? {
          return Some(Malformed(packet.error)), [];
        }
        DecodedEntriesFresh(Truncate(datagrams[i]), now);
        var status := UpdateRoutingTable(packet.value, now);
        if status.Fail? {
          return Some(status.error), [];
        }
        i := i + 1;
      }
      failure := None;
      changedRtes := [];
      if changed {
        changedRtes := CollectChanged();
      }
    }

    /**
     * update, without the socket: the packet built for each neighbour in
     * dictionary order, with the port it goes to; nothing when the router
     * has no input port to send from.
     */
    method Update(rtes: seq<Rte>, now: int) returns (sends: seq<Datagram>)
      requires Wired()
      ensures inputs == {} ==> sends == []
      ensures inputs != {} ==> |sends| == |neighbours|
      ensures inputs != {} ==> forall i :: 0 <= i < |neighbours| ==>
                sends[i] == Datagram(outputs[neighbours[i]].port,
                                     Packet(HeaderFromHost(id), SplitHorizon(rtes, neighbours[i], now)))
    {
      sends := [];
      if inputs != {} {
        var localHeader := HeaderFromHost(id);
        var i := 0;
        while i < |neighbours|
          invariant 0 <= i <= |neighbours| && |sends| == i
          invariant forall j :: 0 <= j < i ==>
                      sends[j] == Datagram(outputs[neighbours[j]].port,
                                           Packet(localHeader, SplitHorizon(rtes, neighbours[j], now)))
        {
          var output := neighbours[i];
          var validated := ValidatedRtes(rtes, output, now);
          sends := sends + [Datagram(outputs[output].port, Packet(localHeader, validated))];
          i := i + 1;
        }
      }
    }

    /**
     * check_timeout: expire every timed entry whose timer has run
     * ROUTE_TIMEOUT, in table order. The source's emptiness guard always
     * holds, since the table always holds the router's own entry.
     */
    method CheckTimeout(now: int)
      requires Valid()
      modifies this
      ensures Valid()
      ensures State() == ExpireAll(old(State()), now)
    {
      ExpireAllValid(State(), id, now);
      assert forall j :: 0 <= j < |order| ==> order[j] in table by {
        forall j | 0 <= j < |order| ensures order[j] in table { assert order[j] in order; }
      }
      table, changed := ExpireEntries(table, order, changed, now);
    }

    /**
     * check_is_garbage: list the collectable entries in table order, then
     * delete them. The source's emptiness guard always holds, since the
     * table always holds the router's own entry.
     */
    method CheckIsGarbage(now: int)
      requires Valid()
      modifies this
      ensures Valid()
      ensures State() == CollectGarbage(old(State()), now)
    {
      CollectGarbageValid(State(), id, now);
      var toDelete := GarbageKeys(table, order, now);
      assert Elems(toDelete) == Dead(State(), now) by {
        forall k
          ensures k in Elems(toDelete) <==> k in Dead(State(), now)
        {
          assert k in order <==> k in table;
        }
      }
      table, order := DeleteKeys(table, order, toDelete);
    }
  }

  /** The loop of the flag-collection step, over the dictionary's keys in order. */
  method ClearEntries(table: map<int, Rte>, order: seq<int>) returns (t: map<int, Rte>, changedRtes: seq<Rte>)
    requires NoDup(order)
    requires forall j :: 0 <= j < |order| ==> order[j] in table
    requires forall k :: k in table ==> k in order
    ensures changedRtes == ChangedAlong(order, table)
    ensures t == ClearFlags(RouterState(table, order, false)).table
  {
    t := table;
    changedRtes := [];
    var i := 0;
    while i < |order|
      invariant 0 <= i <= |order|
      invariant t.Keys == table.Keys
      invariant changedRtes == ChangedAlong(order[..i], table)
      invariant forall j :: 0 <= j < i ==> t[order[j]] == table[order[j]].(changed := false)
      invariant forall j :: i <= j < |order| ==> t[order[j]] == table[order[j]]
    {
      var k := order[i];
      assert order[..i + 1][..i] == order[..i];
      var rte := t[k];
      if rte.changed {
        changedRtes := changedRtes + [rte.(changed := false)];
        t := t[k := rte.(changed := false)];
      }
      i := i + 1;
    }
    assert order[..i] == order;
    forall k | k in t
      ensures t[k] == table[k].(changed := false)
    {
      var j :| 0 <= j < |order| && order[j] == k;
    }
  }

  /** The loop of check_timeout, over the dictionary's keys in order. */
  method ExpireEntries(table: map<int, Rte>, order: seq<int>, changed: bool, now: int) returns (t: map<int, Rte>, anyExpired: bool)
    requires NoDup(order)
    requires forall j :: 0 <= j < |order| ==> order[j] in table
    requires forall k :: k in table ==> k in order
    ensures RouterState(t, order, anyExpired) == ExpireAll(RouterState(table, order, changed), now)
  {
    t := table;
    anyExpired := changed;
    var i := 0;
    while i < |order|
      invariant 0 <= i <= |order|
      invariant t.Keys == table.Keys
      invariant forall j :: 0 <= j < i ==> t[order[j]] == Expire(table[order[j]], now)
      invariant forall j :: i <= j < |order| ==> t[order[j]] == table[order[j]]
      invariant anyExpired == (changed || exists j :: 0 <= j < i && TimedOut(table[order[j]], now))
    {
      var k := order[i];
      var rte := t[k];
      if rte.timeout.Some? && now - rte.timeout.value >= ROUTE_TIMEOUT {
        rte := rte.(isGarbage := true, changed := true, metric := MAX_METRIC, timeout := Some(now));
        t := t[k := rte];
        anyExpired := true;
      }
      i := i + 1;
    }
    forall k | k in t
      ensures t[k] == Expire(table[k], now)
    {
      var j :| 0 <= j < |order| && order[j] == k;
    }
    if exists k :: k in table && TimedOut(table[k], now) {
      var k :| k in table && TimedOut(table[k], now);
      var j :| 0 <= j < |order| && order[j] == k;
    }
  }

  function Elems(s: seq<int>): set<int>
  {
    set k | k in s
  }

  /** The first pass of check_is_garbage: the keys of the garbage entries whose timer has run DELETE_TIMEOUT. */
  method GarbageKeys(table: map<int, Rte>, order: seq<int>, now: int) returns (toDelete: seq<int>)
    requires forall j :: 0 <= j < |order| ==> order[j] in table
    requires forall k :: k in table && table[k].isGarbage ==> table[k].timeout.Some?
    ensures forall k :: k in toDelete <==> k in order && Collectable(table[k], now)
  {
    toDelete := [];
    var i := 0;
    while i < |order|
      invariant 0 <= i <= |order|
      invariant forall k :: k in toDelete <==> k in order[..i] && Collectable(table[k], now)
    {
      var k := order[i];
      var rte := table[k];
      assert order[..i + 1] == order[..i] + [k];
      if rte.isGarbage {
        if now - rte.timeout.value >= DELETE_TIMEOUT {
          toDelete := toDelete + [k];
        }
      }
      i := i + 1;
    }
    assert order[..i] == order;
  }

  /** The second pass of check_is_garbage: delete the listed keys from the dictionary. */
  method DeleteKeys(table: map<int, Rte>, order: seq<int>, toDelete: seq<int>) returns (t: map<int, Rte>, keys: seq<int>)
    ensures t == table - Elems(toDelete) && keys == Without(order, Elems(toDelete))
  {
    WithoutEmpty(order);
    t, keys := table, order;
    ghost var gone: set<int> := {};
    assert t - gone == t;
    var j := 0;
    while j < |toDelete|
      invariant 0 <= j <= |toDelete|
      invariant gone == Elems(toDelete[..j])
      invariant t == table - gone && keys == Without(order, gone)
    {
      var entry := toDelete[j];
      assert toDelete[..j + 1] == toDelete[..j] + [entry];
      assert Elems(toDelete[..j + 1]) == gone + {entry};
      WithoutTwice(order, gone, {entry});
      t := t - {entry};
      keys := Without(keys, {entry});
      gone := gone + {entry};
      j := j + 1;
    }
    assert toDelete[..j] == toDelete;
  }

  /** Router(config): configure the links (which may raise), then start with only the self entry. */
  method NewRouter(config: RouterConfig) returns (r: Result<Router, RouterError>)
    ensures r.Err? <==> exists i :: 0 <= i < |config.outputs| && !ValidOutput(config.outputs[i])
    ensures r.Err? ==> r.error == InvalidOutputParameters
    ensures r.Ok? ==> fresh(r.value) && r.value.Valid() && r.value.Wired() && r.value.id == config.id &&
                      r.value.inputs == (set p | p in config.inputs) && r.value.outputs == LinkTable(config.outputs) &&
                      r.value.neighbours == NeighbourOrder(config.outputs) && r.value.State() == InitialState(config.id)
  {
    var n := ConfigOutputs(config.outputs);
    if n.Err? {
      return Err(n.error);
    }
    var router := new Router(config, n.value);
    return Ok(router);
  }
}
