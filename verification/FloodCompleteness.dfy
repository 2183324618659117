/** On a static, symmetric, lossless network whose source component has at most 13 routers,
    flooding reaches every router of the component. */
module FloodCompleteness {
  import opened Flooding

  type Links = seq<seq<bool>>

  predicate Link(conn: Links, u: int, v: int) {
    0 <= u < |conn| && 0 <= v < |conn[u]| && conn[u][v] && u != v
  }

  /** `nodes` contains s and no link leads out of it; links are symmetric. */
  ghost predicate Component(conn: Links, s: int, nodes: set<int>) {
    && s in nodes && |nodes| <= TTL
    && (forall u, v :: u in nodes && Link(conn, u, v) ==> v in nodes)
    && (forall u, v :: Link(conn, u, v) ==> Link(conn, v, u))
  }

  ghost predicate Distinct(p: seq<int>) {
    forall i, j :: 0 <= i < j < |p| ==> p[i] != p[j]
  }

  lemma {:induction false} DistinctFits(p: seq<int>, nodes: set<int>)
    requires Distinct(p) && forall i :: 0 <= i < |p| ==> p[i] in nodes
    ensures |p| <= |nodes|
    decreases |p|
  {
    if p != [] {
      var last := p[|p| - 1];
      DistinctFits(p[..|p| - 1], nodes - {last});
    }
  }

  // ---------- The invariant for one link (s, n) ----------

  predicate About(m: Msg, s: int, n: int, q: int) {
    m.lsp.source == s && m.lsp.neighbour == n && m.lsp.seqNum == q
  }

  /** The packet has travelled along distinct routers that all hold its number, and has used up one
      hop at each of them. */
  ghost predicate TrailOk(net: Net, nodes: set<int>, s: int, n: int, m: Msg) {
    && m.trail != [] && Distinct(m.trail) && m.from == m.trail[|m.trail| - 1] && Link(net.conn, m.from, m.to)
    && m.lsp.ttl == TTL + 1 - |m.trail|
    && (forall i :: 0 <= i < |m.trail| ==> m.trail[i] in nodes && Num(net, m.trail[i], s, n) == Num(net, s, s, n))
  }

  ghost predicate Underway(net: Net, u: int, s: int, n: int, q: int) {
    exists m :: m in net.flight && m.to == u && About(m, s, n, q)
  }

  /** Every neighbour of a router that holds the source's latest number holds it as well, or has a
      packet with that number on its way to it. */
  ghost predicate Covered(net: Net, nodes: set<int>, s: int, n: int) {
    var q := Num(net, s, s, n);
    && 0 < q
    && (forall m :: m in net.flight && About(m, s, n, q) ==> TrailOk(net, nodes, s, n, m))
    && (forall v, u :: v in nodes && Num(net, v, s, n) == q && Link(net.conn, v, u) ==>
          Num(net, u, s, n) == q || Underway(net, u, s, n, q))
  }

  /** A new announcement starts a new wave. */
  lemma OriginateCovers(net: Net, net': Net, nodes: set<int>, s: int, n: int, cost: int, enter: bool)
    requires Authority(net) && Originate(net, net', s, n, cost, enter) && Component(net.conn, s, nodes)
    ensures Covered(net', nodes, s, n)
  {
    var q := Num(net', s, s, n);
    assert 0 < q by {
      assert Bounded(net, s, s, n);
    }
    forall m | m in net'.flight && About(m, s, n, q)
      ensures TrailOk(net', nodes, s, n, m)
    {
      OriginateTrail(net, net', nodes, s, n, cost, enter, m);
    }
    forall v, u | v in nodes && Num(net', v, s, n) == q && Link(net'.conn, v, u)
      ensures Num(net', u, s, n) == q || Underway(net', u, s, n, q)
    {
      OriginateReaches(net, net', s, n, cost, enter, v, u);
    }
  }

  lemma OriginateTrail(net: Net, net': Net, nodes: set<int>, s: int, n: int, cost: int, enter: bool, m: Msg)
    requires Authority(net) && Originate(net, net', s, n, cost, enter) && Component(net.conn, s, nodes)
    requires m in net'.flight && About(m, s, n, Num(net', s, s, n))
    ensures TrailOk(net', nodes, s, n, m)
  {
    assert m in net.flight ==> MsgAuthority(net, m);
  }

  /** Only the source has the new number, and it has told its neighbours. */
  lemma OriginateReaches(net: Net, net': Net, s: int, n: int, cost: int, enter: bool, v: int, u: int)
    requires Authority(net) && Originate(net, net', s, n, cost, enter)
    requires Num(net', v, s, n) == Num(net', s, s, n) && Link(net'.conn, v, u)
    ensures Num(net', u, s, n) == Num(net', s, s, n) || Underway(net', u, s, n, Num(net', s, s, n))
  {
    assert Bounded(net, v, s, n);
    if u != s {
      assert Msg(s, u, Lsp(s, n, cost, Num(net', s, s, n), TTL), [s]) in net'.flight;
    }
  }

  /** Announcements about other links do not interfere. */
  lemma OriginateKeepsCovered(net: Net, net': Net, nodes: set<int>, s: int, n: int,
                              s': int, n': int, cost: int, enter: bool)
    requires Originate(net, net', s', n', cost, enter) && (s', n') != (s, n) && Covered(net, nodes, s, n)
    ensures Covered(net', nodes, s, n)
  {
    var q := Num(net, s, s, n);
    assert forall v :: Num(net', v, s, n) == Num(net, v, s, n);
    forall m | m in net'.flight && About(m, s, n, q)
      ensures TrailOk(net', nodes, s, n, m)
    {
      assert m in net.flight;
      assert TrailOk(net, nodes, s, n, m);
    }
    forall v, u | v in nodes && Num(net', v, s, n) == q && Link(net'.conn, v, u) && Num(net', u, s, n) != q
      ensures Underway(net', u, s, n, q)
    {
      assert Link(net.conn, v, u);
      var m :| m in net.flight && m.to == u && About(m, s, n, q);
      assert m in net'.flight;
    }
  }

  /** A packet of the latest wave that finds its router without the number still has hops left: the
      routers on its trail and its target are distinct members of the component. */
  lemma HopsLeft(net: Net, nodes: set<int>, s: int, n: int, m: Msg)
    requires Component(net.conn, s, nodes) && TrailOk(net, nodes, s, n, m) && Num(net, m.to, s, n) != Num(net, s, s, n)
    ensures m.lsp.ttl - 1 > 0
    ensures Distinct(m.trail + [m.to])
  {
    DistinctFits(m.trail + [m.to], nodes);
  }

  /** Delivering a packet of the latest wave leaves its number with its target. */
  lemma DeliverNums(net: Net, net': Net, nodes: set<int>, s: int, n: int, m: Msg)
    requires Authority(net) && Deliver(net, net', m) && Component(net.conn, s, nodes)
    requires TrailOk(net, nodes, s, n, m) && About(m, s, n, Num(net, s, s, n))
    ensures forall v :: Num(net', v, s, n) == if v == m.to then Num(net, s, s, n) else Num(net, v, s, n)
    ensures Num(net, m.to, s, n) != Num(net, s, s, n) ==>
              && Distinct(m.trail + [m.to])
              && net'.flight == net.flight - multiset{m} + Sends(net, m.to, m.from, m.lsp.(ttl := m.lsp.ttl - 1),
                 m.trail + [m.to])
    ensures Num(net, m.to, s, n) == Num(net, s, s, n) ==> net'.flight == net.flight - multiset{m}
  {
    assert Bounded(net, m.to, s, n);
    if Num(net, m.to, s, n) != Num(net, s, s, n) {
      HopsLeft(net, nodes, s, n, m);
    }
  }

  lemma DeliverTrails(net: Net, net': Net, nodes: set<int>, s: int, n: int, m: Msg, m': Msg)
    requires Authority(net) && Deliver(net, net', m) && Component(net.conn, s, nodes) && Covered(net, nodes, s, n)
    requires About(m, s, n, Num(net, s, s, n)) && m' in net'.flight && About(m', s, n, Num(net, s, s, n))
    ensures TrailOk(net', nodes, s, n, m')
  {
    assert TrailOk(net, nodes, s, n, m);
    DeliverNums(net, net', nodes, s, n, m);
    if m' in net.flight {
      assert TrailOk(net, nodes, s, n, m');
    } else {
      NextTrail(net, net', nodes, s, n, m, m');
    }
  }

  /** A forwarded copy continues the trail. */
  lemma NextTrail(net: Net, net': Net, nodes: set<int>, s: int, n: int, m: Msg, m': Msg)
    requires TrailOk(net, nodes, s, n, m) && m.to in nodes && net'.conn == net.conn
    requires Distinct(m.trail + [m.to]) && m'.trail == m.trail + [m.to] && m'.from == m.to
              && Link(net.conn, m.to, m'.to)
    requires m'.lsp.ttl == m.lsp.ttl - 1
    requires forall v :: Num(net', v, s, n) == if v == m.to then Num(net, s, s, n) else Num(net, v, s, n)
    ensures TrailOk(net', nodes, s, n, m')
  {
    forall i | 0 <= i < |m'.trail|
      ensures m'.trail[i] in nodes && Num(net', m'.trail[i], s, n) == Num(net', s, s, n)
    {
      assert m'.trail[i] == if i < |m.trail| then m.trail[i] else m.to;
    }
  }

  lemma DeliverNeighbour(net: Net, net': Net, nodes: set<int>, s: int, n: int, m: Msg, v: int, u: int)
    requires Authority(net) && Deliver(net, net', m) && Component(net.conn, s, nodes) && Covered(net, nodes, s, n)
    requires About(m, s, n, Num(net, s, s, n)) && v in nodes && Link(net.conn, v, u)
    requires Num(net', v, s, n) == Num(net, s, s, n)
    ensures Num(net', u, s, n) == Num(net, s, s, n) || Underway(net', u, s, n, Num(net, s, s, n))
  {
    var q := Num(net, s, s, n);
    assert TrailOk(net, nodes, s, n, m);
    DeliverNums(net, net', nodes, s, n, m);
    if Num(net', u, s, n) != q {
      if Num(net, v, s, n) == q {
        StillUnderway(net, net', s, n, m, u);
      } else {
        ForwardedTo(net, net', s, n, m, u);
      }
    }
  }

  /** A packet for a router without the number is not the one delivered. */
  lemma StillUnderway(net: Net, net': Net, s: int, n: int, m: Msg, u: int)
    requires Underway(net, u, s, n, Num(net, s, s, n)) && m.to != u
    requires forall m' :: m' in net.flight && m' != m ==> m' in net'.flight
    ensures Underway(net', u, s, n, Num(net, s, s, n))
  {
    var m' :| m' in net.flight && m'.to == u && About(m', s, n, Num(net, s, s, n));
    assert m' in net'.flight;
  }

  /** A router that has just taken over the number sends it on to every other neighbour. */
  lemma ForwardedTo(net: Net, net': Net, s: int, n: int, m: Msg, u: int)
    requires About(m, s, n, Num(net, s, s, n)) && Link(net.conn, m.to, u) && u != m.from
    requires |net.conn[m.to]| == |net.conn|
    requires net'.flight == net.flight - multiset{m}
                            + Sends(net, m.to, m.from, m.lsp.(ttl := m.lsp.ttl - 1), m.trail + [m.to])
    ensures Underway(net', u, s, n, Num(net, s, s, n))
  {
    assert Msg(m.to, u, m.lsp.(ttl := m.lsp.ttl - 1), m.trail + [m.to]) in net'.flight;
  }

  lemma DeliverKeepsCovered(net: Net, net': Net, nodes: set<int>, s: int, n: int, m: Msg)
    requires Authority(net) && Deliver(net, net', m) && Component(net.conn, s, nodes) && Covered(net, nodes, s, n)
    requires About(m, s, n, Num(net, s, s, n))
    ensures Covered(net', nodes, s, n)
  {
    assert TrailOk(net, nodes, s, n, m);
    DeliverNums(net, net', nodes, s, n, m);
    forall m' | m' in net'.flight && About(m', s, n, Num(net', s, s, n))
      ensures TrailOk(net', nodes, s, n, m')
    {
      DeliverTrails(net, net', nodes, s, n, m, m');
    }
    forall v, u | v in nodes && Num(net', v, s, n) == Num(net', s, s, n) && Link(net'.conn, v, u)
      ensures Num(net', u, s, n) == Num(net', s, s, n) || Underway(net', u, s, n, Num(net', s, s, n))
    {
      DeliverNeighbour(net, net', nodes, s, n, m, v, u);
    }
  }

  /** No other packet changes who holds the latest number. */
  lemma OtherNums(net: Net, net': Net, s: int, n: int, m: Msg)
    requires Authority(net) && Deliver(net, net', m) && !About(m, s, n, Num(net, s, s, n))
    ensures forall v :: Num(net, v, s, n) == Num(net, s, s, n) <==> Num(net', v, s, n) == Num(net, s, s, n)
    ensures Num(net', s, s, n) == Num(net, s, s, n)
  {
    assert MsgAuthority(net, m);
    forall v
      ensures Num(net, v, s, n) == Num(net, s, s, n) <==> Num(net', v, s, n) == Num(net, s, s, n)
    {
      assert Bounded(net, v, s, n);
    }
  }

  /** The other packets of the wave stay on their way ... */
  lemma OtherUnderway(net: Net, net': Net, s: int, n: int, m: Msg, u: int, q: int)
    requires Deliver(net, net', m) && !About(m, s, n, q) && Underway(net, u, s, n, q)
    ensures Underway(net', u, s, n, q)
  {
    var m' :| m' in net.flight && m'.to == u && About(m', s, n, q);
    assert m' != m && m' in net'.flight;
  }

  /** ... and none is added. */
  lemma OtherTrails(net: Net, net': Net, s: int, n: int, m: Msg, m': Msg, q: int)
    requires Deliver(net, net', m) && !About(m, s, n, q) && m' in net'.flight && About(m', s, n, q)
    ensures m' in net.flight
  {
  }

  /** Delivering any other packet. */
  lemma DeliverOtherKeepsCovered(net: Net, net': Net, nodes: set<int>, s: int, n: int, m: Msg)
    requires Authority(net) && Deliver(net, net', m) && Covered(net, nodes, s, n)
    requires !About(m, s, n, Num(net, s, s, n))
    ensures Covered(net', nodes, s, n)
  {
    var q := Num(net, s, s, n);
    OtherNums(net, net', s, n, m);
    forall m' | m' in net'.flight && About(m', s, n, q)
      ensures TrailOk(net', nodes, s, n, m')
    {
      OtherTrails(net, net', s, n, m, m', q);
      assert TrailOk(net, nodes, s, n, m');
    }
    forall v, u | v in nodes && Num(net', v, s, n) == q && Link(net'.conn, v, u) && Num(net', u, s, n) != q
      ensures Underway(net', u, s, n, q)
    {
      assert Link(net.conn, v, u);
      OtherUnderway(net, net', s, n, m, u, q);
    }
  }

  // ---------- Runs ----------

  /** Nothing is lost or duplicated and no link changes. */
  predicate Calm(e: Event) {
    e.EOriginate? || e.EDeliver?
  }

  /** Router s announces its link to n. */
  predicate Announces(e: Event, s: int, n: int) {
    e.EOriginate? && e.s == s && e.n == n
  }

  lemma StepKeepsCovered(net: Net, net': Net, nodes: set<int>, s: int, n: int, e: Event)
    requires Authority(net) && Step(net, net', e) && Calm(e) && Component(net.conn, s, nodes)
    requires Covered(net, nodes, s, n) || Announces(e, s, n)
    ensures Covered(net', nodes, s, n) && net'.conn == net.conn
  {
    match e
    case EOriginate(s', n', cost, enter) =>
      if (s', n') == (s, n) {
        OriginateCovers(net, net', nodes, s, n, cost, enter);
      } else {
        OriginateKeepsCovered(net, net', nodes, s, n, s', n', cost, enter);
      }
    case EDeliver(m) =>
      if About(m, s, n, Num(net, s, s, n)) {
        DeliverKeepsCovered(net, net', nodes, s, n, m);
      } else {
        DeliverOtherKeepsCovered(net, net', nodes, s, n, m);
      }
  }

  /** `p` leads from u to v along links. */
  ghost predicate Walk(conn: Links, u: int, p: seq<int>, v: int)
    decreases |p|
  {
    if p == [] then u == v else Link(conn, u, p[0]) && Walk(conn, p[0], p[1..], v)
  }

  lemma {:induction false} QuietWalk(net: Net, nodes: set<int>, s: int, n: int, u: int, p: seq<int>, v: int)
    requires Component(net.conn, s, nodes) && Covered(net, nodes, s, n) && net.flight == multiset{}
    requires u in nodes && Num(net, u, s, n) == Num(net, s, s, n) && Walk(net.conn, u, p, v)
    ensures Num(net, v, s, n) == Num(net, s, s, n)
    decreases |p|
  {
    if p != [] {
      assert !Underway(net, p[0], s, n, Num(net, s, s, n));
      QuietWalk(net, nodes, s, n, p[0], p[1..], v);
    }
  }

  lemma {:induction false} RunKeepsCovered(nets: seq<Net>, events: seq<Event>, start: nat, k: nat,
                                           nodes: set<int>, s: int, n: int)
    requires Run(nets, events) && Init(nets[0]) && start < k < |nets|
    requires Announces(events[start], s, n) && Component(nets[start].conn, s, nodes)
    requires forall i :: start <= i < |events| ==> Calm(events[i])
    ensures Covered(nets[k], nodes, s, n) && nets[k].conn == nets[start].conn
  {
    if k - 1 > start {
      RunKeepsCovered(nets, events, start, k - 1, nodes, s, n);
    }
    RunStepKeepsCovered(nets, events, k - 1, nodes, s, n);
  }

  lemma RunStepKeepsCovered(nets: seq<Net>, events: seq<Event>, k: nat, nodes: set<int>, s: int, n: int)
    requires Run(nets, events) && Init(nets[0]) && k < |events| && Calm(events[k]) && Component(nets[k].conn, s, nodes)
    requires Covered(nets[k], nodes, s, n) || Announces(events[k], s, n)
    ensures Covered(nets[k + 1], nodes, s, n) && nets[k + 1].conn == nets[k].conn
  {
    RunAuthority(nets, events, k);
    assert StepAt(nets, events, k);
    StepKeepsCovered(nets[k], nets[k + 1], nodes, s, n, events[k]);
  }

  /** Whatever happened before (losses and changes of links included): if from the announcement of
      a link on the network is static and lossless, then once nothing is in flight any more every
      router connected to the source holds the source's latest number for that link. */
  lemma FloodComplete(nets: seq<Net>, events: seq<Event>, start: nat, nodes: set<int>, s: int, n: int,
                      p: seq<int>, v: int)
    requires Run(nets, events) && Init(nets[0]) && start < |events|
    requires Announces(events[start], s, n) && Component(nets[start].conn, s, nodes)
    requires forall i :: start <= i < |events| ==> Calm(events[i])
    requires nets[|events|].flight == multiset{} && Walk(nets[start].conn, s, p, v)
    ensures var end := nets[|events|]; 0 < Num(end, v, s, n) == Num(end, s, s, n)
  {
    RunKeepsCovered(nets, events, start, |events|, nodes, s, n);
    QuietWalk(nets[|events|], nodes, s, n, s, p, v);
  }

  // ---------- The limit set by the TTL ----------

  ghost predicate WithinHops(conn: Links, s: int, v: int, hops: int) {
    exists p :: Walk(conn, s, p, v) && |p| <= hops
  }

  ghost predicate TtlInv(net: Net) {
    && (forall v, s, n :: 0 < Num(net, v, s, n) ==> WithinHops(net.conn, s, v, TTL - 1))
    && (forall m :: m in net.flight ==> WithinHops(net.conn, m.lsp.source, m.to, TTL + 1 - m.lsp.ttl))
  }

  lemma {:induction false} WalkAppend(conn: Links, u: int, p: seq<int>, v: int, w: int)
    requires Walk(conn, u, p, v) && Link(conn, v, w)
    ensures Walk(conn, u, p + [w], w)
    decreases |p|
  {
    if p == [] {
      assert [w][1..] == [];
    } else {
      WalkAppend(conn, p[0], p[1..], v, w);
      assert (p + [w])[1..] == p[1..] + [w];
    }
  }

  lemma OneMoreHop(conn: Links, s: int, v: int, w: int, hops: int)
    requires WithinHops(conn, s, v, hops) && Link(conn, v, w)
    ensures WithinHops(conn, s, w, hops + 1)
  {
    var p :| Walk(conn, s, p, v) && |p| <= hops;
    WalkAppend(conn, s, p, v, w);
  }

  lemma NumsWithin(net: Net, net': Net, e: Event, v: int, s: int, n: int)
    requires TtlInv(net) && Step(net, net', e) && !e.ERewire? && 0 < Num(net', v, s, n)
    ensures WithinHops(net.conn, s, v, TTL - 1)
  {
    if Num(net', v, s, n) != Num(net, v, s, n) {
      match e
      case EOriginate(_, _, _, _) => assert Walk(net.conn, s, [], s);
      case EDeliver(m) =>
        var p :| Walk(net.conn, s, p, v) && |p| <= TTL + 1 - m.lsp.ttl;
    }
  }

  lemma NewMsgWithin(net: Net, net': Net, e: Event, m': Msg)
    requires TtlInv(net) && Step(net, net', e) && !e.ERewire? && m' in net'.flight && m' !in net.flight
    ensures WithinHops(net.conn, m'.lsp.source, m'.to, TTL + 1 - m'.lsp.ttl)
  {
    match e
    case EOriginate(s, _, _, _) =>
      assert Walk(net.conn, s, [], s);
      assert WithinHops(net.conn, s, s, 0);
      OneMoreHop(net.conn, s, s, m'.to, 0);
    case EDeliver(m) =>
      OneMoreHop(net.conn, m.lsp.source, m.to, m'.to, TTL + 1 - m.lsp.ttl);
  }

  lemma StepKeepsTtlInv(net: Net, net': Net, e: Event)
    requires TtlInv(net) && Step(net, net', e) && !e.ERewire?
    ensures TtlInv(net') && net'.conn == net.conn
  {
    forall v, s, n | 0 < Num(net', v, s, n)
      ensures WithinHops(net.conn, s, v, TTL - 1)
    {
      NumsWithin(net, net', e, v, s, n);
    }
    forall m' | m' in net'.flight && m' !in net.flight
      ensures WithinHops(net.conn, m'.lsp.source, m'.to, TTL + 1 - m'.lsp.ttl)
    {
      NewMsgWithin(net, net', e, m');
    }
  }

  /** Why at most 13 routers: on a static network no router further than 12 links from a source ever
      hears of any of its announcements. */
  lemma {:induction false} BeyondTtlSilent(nets: seq<Net>, events: seq<Event>, k: nat)
    requires Run(nets, events) && Init(nets[0]) && k < |nets|
    requires forall i :: 0 <= i < |events| ==> !events[i].ERewire?
    ensures nets[k].conn == nets[0].conn && TtlInv(nets[k])
    ensures forall v, s, n :: !WithinHops(nets[0].conn, s, v, TTL - 1) ==> Num(nets[k], v, s, n) <= 0
  {
    if k > 0 {
      BeyondTtlSilent(nets, events, k - 1);
      assert StepAt(nets, events, k - 1);
      StepKeepsTtlInv(nets[k - 1], nets[k], events[k - 1]);
    }
  }
}
