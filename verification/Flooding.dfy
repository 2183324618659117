/** Flooding of link-state packets: what one router does with a packet, and what that makes of a
    whole network of routers. */
module Flooding {

  const TTL := 13  // hops given to every packet by its source

  /** One router's announcement about its link to one neighbour. */
  datatype Lsp = Lsp(source: int, neighbour: int, cost: int, seqNum: int, ttl: int)

  // ---------- One router ----------

  /** A packet is news to a router that holds number q for its link when the packet's number is
      greater and a hop remains after this one. */
  predicate Accepts(q: int, lsp: Lsp) {
    lsp.seqNum > q && lsp.ttl - 1 > 0
  }

  /** The neighbours below k to whom a router sends, all but itself and one exception. */
  function Recipients(conn: seq<bool>, me: int, except: int, k: nat): (r: seq<int>)
    requires k <= |conn|
    ensures forall u :: u in r <==> 0 <= u < k && conn[u] && u != me && u != except
  {
    if k == 0 then []
    else Recipients(conn, me, except, k - 1)
         + if k - 1 != me && conn[k - 1] && k - 1 != except then [k - 1] else []
  }

  // ---------- The network ----------

  /** A packet in flight. `trail` is a history variable: the routers that have sent it on. */
  datatype Msg = Msg(from: int, to: int, lsp: Lsp, trail: seq<int>)

  function Copies(from: int, rs: seq<int>, lsp: Lsp, trail: seq<int>): (r: seq<Msg>)
    ensures forall m :: m in r <==> m.from == from && m.to in rs && m.lsp == lsp && m.trail == trail
  {
    if rs == [] then [] else [Msg(from, rs[0], lsp, trail)] + Copies(from, rs[1..], lsp, trail)
  }

  /** All routers. `nums` is the sequence-number matrix of every router: (v, s, n) is what router v
      holds for the link of s to n, and (s, s, n) is the counter of s itself. `mat` is the cost matrix of
      every router. Two history variables:
      `issued` records the cost announced under each number of a link, and `held` the cost each
      router took over together with the number it holds. */
  datatype Net = Net(conn: seq<seq<bool>>, nums: map<(int, int, int), int>, mat: map<(int, int, int), int>,
                     flight: multiset<Msg>,
                     issued: map<(int, int, int), int>, held: map<(int, int, int), int>)

  function Num(net: Net, v: int, s: int, n: int): int {
    if (v, s, n) in net.nums then net.nums[(v, s, n)] else 0
  }

  /** What router v's matrix says about the link from a to b. */
  function MatAt(net: Net, v: int, a: int, b: int): int {
    if (v, a, b) in net.mat then net.mat[(v, a, b)] else 0
  }

  /** Router v enters a cost for both directions of a link. */
  function Entered(mat: map<(int, int, int), int>, v: int, a: int, b: int, cost: int): map<(int, int, int), int> {
    mat[(v, a, b) := cost][(v, b, a) := cost]
  }

  function Sends(net: Net, v: int, except: int, lsp: Lsp, trail: seq<int>): (r: multiset<Msg>)
    requires 0 <= v < |net.conn|
    ensures forall m :: m in r <==> m == Msg(v, m.to, lsp, trail) && 0 <= m.to < |net.conn[v]|
                                    && net.conn[v][m.to] && m.to != v && m.to != except
  {
    multiset(Copies(v, Recipients(net.conn[v], v, except, |net.conn[v]|), lsp, trail))
  }

  ghost predicate WellFormed(net: Net) {
    && (forall v :: 0 <= v < |net.conn| ==> |net.conn[v]| == |net.conn|)
    && (forall m :: m in net.flight ==> 0 <= m.to < |net.conn|)
  }

  /** Router s announces its link to n under its next number to all its neighbours. When the link has just
      come up, gone down or changed its cost, it has entered that in its own matrix before. */
  ghost predicate Originate(net: Net, net': Net, s: int, n: int, cost: int, enter: bool) {
    && 0 <= s < |net.conn|
    && var q := Num(net, s, s, n) + 1;
       net' == net.(nums := net.nums[(s, s, n) := q],
                    mat := if enter then Entered(net.mat, s, s, n, cost) else net.mat,
                    flight := net.flight + Sends(net, s, s, Lsp(s, n, cost, q, TTL), [s]),
                    issued := net.issued[(s, n, q) := cost],
                    held := net.held[(s, s, n) := cost])
  }

  /** A packet reaches its next router, which discards it or takes it over and passes it on to
      everyone but the router it came from. */
  ghost predicate Deliver(net: Net, net': Net, m: Msg) {
    && m in net.flight && 0 <= m.to < |net.conn|
    && var v := m.to; var lsp := m.lsp; var link := (v, lsp.source, lsp.neighbour);
       net' == if !Accepts(Num(net, v, lsp.source, lsp.neighbour), lsp) then net.(flight := net.flight - multiset{m})
               else net.(nums := net.nums[link := lsp.seqNum],
                         mat := Entered(net.mat, v, lsp.source, lsp.neighbour, lsp.cost),
                         flight := net.flight - multiset{m}
                                   + Sends(net, v, m.from, lsp.(ttl := lsp.ttl - 1), m.trail + [v]),
                         held := net.held[link := lsp.cost])
  }

  ghost predicate Lose(net: Net, net': Net, m: Msg) {
    m in net.flight && net' == net.(flight := net.flight - multiset{m})
  }

  ghost predicate Duplicate(net: Net, net': Net, m: Msg) {
    m in net.flight && net' == net.(flight := net.flight + multiset{m})
  }

  /** Links come up and go down. */
  ghost predicate Rewire(net: Net, net': Net) {
    |net'.conn| == |net.conn| && (forall v :: 0 <= v < |net.conn| ==> |net'.conn[v]| == |net.conn[v]|)
    && net' == net.(conn := net'.conn)
  }

  datatype Event =
    | EOriginate(s: int, n: int, cost: int, enter: bool)
    | EDeliver(m: Msg)
    | ELose(m: Msg)
    | EDuplicate(m: Msg)
    | ERewire

  ghost predicate Step(net: Net, net': Net, e: Event) {
    match e
    case EOriginate(s, n, cost, enter) => Originate(net, net', s, n, cost, enter)
    case EDeliver(m) => Deliver(net, net', m)
    case ELose(m) => Lose(net, net', m)
    case EDuplicate(m) => Duplicate(net, net', m)
    case ERewire => Rewire(net, net')
  }

  /** Every router starts with all numbers 0 and nothing is in flight. */
  ghost predicate Init(net: Net) {
    WellFormed(net) && net.nums == map[] && net.mat == map[] && net.flight == multiset{} && net.issued == map[]
        && net.held == map[]
  }

  /** A finite run: one event between any two consecutive states. */
  ghost predicate Run(nets: seq<Net>, events: seq<Event>) {
    |nets| == |events| + 1 && forall k :: 0 <= k < |events| ==> StepAt(nets, events, k)
  }

  ghost predicate StepAt(nets: seq<Net>, events: seq<Event>, k: int) {
    0 <= k < |events| && k + 1 < |nets| && Step(nets[k], nets[k + 1], events[k])
  }

  // ---------- Sequence-number authority ----------

  /** No number exceeds its source's counter, and every number stands for one cost. */
  ghost predicate Authority(net: Net) {
    && WellFormed(net)
    && (forall v, s, n :: Bounded(net, v, s, n))
    && (forall m :: m in net.flight ==> MsgAuthority(net, m))
    && (forall s, n, q :: (s, n, q) in net.issued ==> q <= Num(net, s, s, n))
    && (forall v, s, n :: 0 < Num(net, v, s, n) ==> HeldAuthority(net, v, s, n))
  }

  ghost predicate Bounded(net: Net, v: int, s: int, n: int) {
    0 <= Num(net, v, s, n) <= Num(net, s, s, n)
  }

  ghost predicate MsgAuthority(net: Net, m: Msg) {
    var s, n, q := m.lsp.source, m.lsp.neighbour, m.lsp.seqNum;
    q <= Num(net, s, s, n) && (s, n, q) in net.issued && net.issued[(s, n, q)] == m.lsp.cost
  }

  ghost predicate HeldAuthority(net: Net, v: int, s: int, n: int) {
    var q := Num(net, v, s, n);
    (v, s, n) in net.held && (s, n, q) in net.issued && net.held[(v, s, n)] == net.issued[(s, n, q)]
  }

  lemma OriginateNum(net: Net, net': Net, s: int, n: int, cost: int, enter: bool, v: int, a: int, b: int)
    requires Authority(net) && Originate(net, net', s, n, cost, enter)
    ensures Bounded(net', v, a, b) && (0 < Num(net', v, a, b) ==> HeldAuthority(net', v, a, b))
  {
    assert Bounded(net, v, a, b);
    if (v, a, b) != (s, s, n) && 0 < Num(net', v, a, b) {
      assert HeldAuthority(net, v, a, b);
    }
  }

  lemma OriginateKeepsAuthority(net: Net, net': Net, s: int, n: int, cost: int, enter: bool)
    requires Authority(net) && Originate(net, net', s, n, cost, enter)
    ensures Authority(net')
  {
    forall v, a, b
      ensures Bounded(net', v, a, b) && (0 < Num(net', v, a, b) ==> HeldAuthority(net', v, a, b))
    {
      OriginateNum(net, net', s, n, cost, enter, v, a, b);
    }
    OriginateIssued(net, net', s, n, cost, enter);
    OriginateMsgs(net, net', s, n, cost, enter);
  }

  lemma OriginateIssued(net: Net, net': Net, s: int, n: int, cost: int, enter: bool)
    requires Authority(net) && Originate(net, net', s, n, cost, enter)
    ensures forall a, b, q :: (a, b, q) in net'.issued ==> q <= Num(net', a, a, b)
  {
  }

  lemma OriginateMsgs(net: Net, net': Net, s: int, n: int, cost: int, enter: bool)
    requires Authority(net) && Originate(net, net', s, n, cost, enter)
    ensures WellFormed(net') && forall m :: m in net'.flight ==> MsgAuthority(net', m)
  {
    forall m | m in net'.flight
      ensures MsgAuthority(net', m) && 0 <= m.to < |net'.conn|
    {
      OriginateMsg(net, net', s, n, cost, enter, m);
    }
  }

  lemma OriginateMsg(net: Net, net': Net, s: int, n: int, cost: int, enter: bool, m: Msg)
    requires Authority(net) && Originate(net, net', s, n, cost, enter) && m in net'.flight
    ensures MsgAuthority(net', m) && 0 <= m.to < |net'.conn|
  {
    if m in net.flight {
      assert MsgAuthority(net, m);
    } else {
      assert m in Sends(net, s, s, Lsp(s, n, cost, Num(net', s, s, n), TTL), [s]);
      assert m.lsp == Lsp(s, n, cost, Num(net', s, s, n), TTL);
    }
  }

  /** A router never accepts a packet that names itself as the source. */
  lemma OwnPacketRejected(net: Net, m: Msg)
    requires Authority(net) && m in net.flight && m.lsp.source == m.to
    ensures !Accepts(Num(net, m.to, m.lsp.source, m.lsp.neighbour), m.lsp)
  {
    assert MsgAuthority(net, m);
  }

  lemma DeliverNum(net: Net, net': Net, m: Msg, v: int, a: int, b: int)
    requires Authority(net) && Deliver(net, net', m)
    ensures Bounded(net', v, a, b) && (0 < Num(net', v, a, b) ==> HeldAuthority(net', v, a, b))
  {
    assert MsgAuthority(net, m) && Bounded(net, v, a, b);
    if (v, a, b) != (m.to, m.lsp.source, m.lsp.neighbour) && 0 < Num(net', v, a, b) {
      assert HeldAuthority(net, v, a, b);
    }
  }

  lemma DeliverKeepsAuthority(net: Net, net': Net, m: Msg)
    requires Authority(net) && Deliver(net, net', m)
    ensures Authority(net')
  {
    forall v, a, b
      ensures Bounded(net', v, a, b) && (0 < Num(net', v, a, b) ==> HeldAuthority(net', v, a, b))
    {
      DeliverNum(net, net', m, v, a, b);
    }
    DeliverIssued(net, net', m);
    DeliverMsgs(net, net', m);
  }

  lemma DeliverIssued(net: Net, net': Net, m: Msg)
    requires Authority(net) && Deliver(net, net', m)
    ensures forall a, b, q :: (a, b, q) in net'.issued ==> q <= Num(net', a, a, b)
  {
    assert MsgAuthority(net, m);
  }

  lemma DeliverMsgs(net: Net, net': Net, m: Msg)
    requires Authority(net) && Deliver(net, net', m)
    ensures WellFormed(net') && forall m' :: m' in net'.flight ==> MsgAuthority(net', m')
  {
    forall m' | m' in net'.flight
      ensures MsgAuthority(net', m') && 0 <= m'.to < |net'.conn|
    {
      DeliverMsg(net, net', m, m');
    }
  }

  lemma DeliverMsg(net: Net, net': Net, m: Msg, m': Msg)
    requires Authority(net) && Deliver(net, net', m) && m' in net'.flight
    ensures MsgAuthority(net', m') && 0 <= m'.to < |net'.conn|
  {
    if m' in net.flight {
      DeliverOldMsg(net, net', m, m');
    } else {
      assert MsgAuthority(net, m);
      DeliverNum(net, net', m, m.to, m.lsp.source, m.lsp.neighbour);
      assert m' in Sends(net, m.to, m.from, m.lsp.(ttl := m.lsp.ttl - 1), m.trail + [m.to]);
      DeliverIssued(net, net', m);
    }
  }

  lemma DeliverOldMsg(net: Net, net': Net, m: Msg, m': Msg)
    requires Authority(net) && Deliver(net, net', m) && m' in net.flight
    ensures MsgAuthority(net', m')
  {
    assert MsgAuthority(net, m');
    DeliverIssued(net, net', m);
  }

  lemma StepKeepsAuthority(net: Net, net': Net, e: Event)
    requires Authority(net) && Step(net, net', e)
    ensures Authority(net')
  {
    match e
    case EOriginate(s, n, cost, enter) => OriginateKeepsAuthority(net, net', s, n, cost, enter);
    case EDeliver(m) => DeliverKeepsAuthority(net, net', m);
    case _ => QuietKeepsAuthority(net, net', e);
  }

  lemma QuietKeepsAuthority(net: Net, net': Net, e: Event)
    requires Authority(net) && Step(net, net', e) && !e.EOriginate? && !e.EDeliver?
    ensures Authority(net')
  {
    forall m | m in net'.flight
      ensures m in net.flight
    {
    }
    OtherKeepsAuthority(net, net');
  }

  /** Losing or duplicating packets and rewiring links touch no number. */
  lemma OtherKeepsAuthority(net: Net, net': Net)
    requires Authority(net) && WellFormed(net')
    requires net'.nums == net.nums && net'.issued == net.issued && net'.held == net.held
    requires forall m :: m in net'.flight ==> m in net.flight
    ensures Authority(net')
  {
    forall v, a, b
      ensures Bounded(net', v, a, b) && (0 < Num(net', v, a, b) ==> HeldAuthority(net', v, a, b))
    {
      assert Bounded(net, v, a, b);
      assert 0 < Num(net, v, a, b) ==> HeldAuthority(net, v, a, b);
    }
    forall m | m in net'.flight
      ensures MsgAuthority(net', m)
    {
      assert MsgAuthority(net, m);
    }
  }

  /** Authority holds in every state of every run. */
  lemma {:induction false} RunAuthority(nets: seq<Net>, events: seq<Event>, k: nat)
    requires Run(nets, events) && Init(nets[0]) && k < |nets|
    ensures Authority(nets[k])
  {
    if k > 0 {
      RunAuthority(nets, events, k - 1);
      assert StepAt(nets, events, k - 1);
      StepKeepsAuthority(nets[k - 1], nets[k], events[k - 1]);
    }
  }

  /** In every run: no router takes over a packet naming itself as the source, and two routers that
      hold the same number for a link took over the same cost with it. */
  lemma RunAgreement(nets: seq<Net>, events: seq<Event>, k: nat)
    requires Run(nets, events) && Init(nets[0]) && k < |nets|
    ensures forall m :: m in nets[k].flight && m.lsp.source == m.to ==>
              !Accepts(Num(nets[k], m.to, m.lsp.source, m.lsp.neighbour), m.lsp)
    ensures forall v, u, s, n :: Num(nets[k], v, s, n) == Num(nets[k], u, s, n) > 0 ==>
              (v, s, n) in nets[k].held && (u, s, n) in nets[k].held
                  && nets[k].held[(v, s, n)] == nets[k].held[(u, s, n)]
  {
    RunAuthority(nets, events, k);
    forall m | m in nets[k].flight && m.lsp.source == m.to
      ensures !Accepts(Num(nets[k], m.to, m.lsp.source, m.lsp.neighbour), m.lsp)
    {
      OwnPacketRejected(nets[k], m);
    }
    forall v, u, s, n | Num(nets[k], v, s, n) == Num(nets[k], u, s, n) > 0
      ensures (v, s, n) in nets[k].held && (u, s, n) in nets[k].held
                && nets[k].held[(v, s, n)] == nets[k].held[(u, s, n)]
    {
      assert HeldAuthority(nets[k], v, s, n) && HeldAuthority(nets[k], u, s, n);
    }
  }

  // ---------- Each router accepts each number at most once ----------

  ghost predicate AcceptsAt(net: Net, e: Event, v: int, s: int, n: int, q: int) {
    e.EDeliver? && e.m.to == v && e.m.lsp.source == s && e.m.lsp.neighbour == n && e.m.lsp.seqNum == q
    && Accepts(Num(net, v, s, n), e.m.lsp)
  }

  lemma StepNumsGrow(net: Net, net': Net, e: Event, v: int, s: int, n: int)
    requires Step(net, net', e)
    ensures Num(net, v, s, n) <= Num(net', v, s, n)
  {
  }

  lemma {:induction false} NumsGrow(nets: seq<Net>, events: seq<Event>, i: nat, j: nat, v: int, s: int, n: int)
    requires Run(nets, events) && i <= j < |nets|
    ensures Num(nets[i], v, s, n) <= Num(nets[j], v, s, n)
  {
    if i < j {
      NumsGrow(nets, events, i, j - 1, v, s, n);
      assert StepAt(nets, events, j - 1);
      StepNumsGrow(nets[j - 1], nets[j], events[j - 1], v, s, n);
    }
  }

  lemma AcceptedOnce(nets: seq<Net>, events: seq<Event>, i: nat, j: nat, v: int, s: int, n: int, q: int)
    requires Run(nets, events) && i < j < |events| && AcceptsAt(nets[i], events[i], v, s, n, q)
    ensures !AcceptsAt(nets[j], events[j], v, s, n, q)
  {
    assert StepAt(nets, events, i);
    NumsGrow(nets, events, i + 1, j, v, s, n);
  }
}
