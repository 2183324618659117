/** One router's flood as part of the network of routers: what it sends and counts is one announcement
    after another, each with the cost in the router's own matrix. */
module FloodRefinement {
  import opened Flooding
  import opened LinkStateRouter

  /** What a flood looks at: connection state, costs, the router's row of the matrix and its counters. The
      matrix agrees with the connection state. */
  datatype Links = Links(conn: seq<bool>, costs: seq<int>, row: seq<int>, nums: seq<int>)

  ghost predicate LinksOk(me: int, l: Links) {
    && |l.conn| == |l.costs| == |l.row| == |l.nums| && 0 <= me < |l.conn|
    && forall i {:trigger l.conn[i]} :: 0 <= i < |l.conn| && i != me && l.conn[i] ==> l.row[i] == l.costs[i]
  }

  /** A link that is up, or known to have gone down. */
  ghost predicate Known(me: int, l: Links, i: int)
    requires LinksOk(me, l)
  {
    0 <= i < |l.conn| && i != me && (l.conn[i] || l.row[i] == -1)
  }

  ghost function Sent(me: int, l: Links, k: nat): seq<Send>
    requires LinksOk(me, l) && k <= |l.conn|
  {
    Router.FloodSends(me, l.conn, l.costs, l.row, l.nums, k)
  }

  ghost function SentAbout(me: int, l: Links, i: nat): seq<Send>
    requires LinksOk(me, l) && i < |l.conn|
  {
    Router.FloodSend(me, l.conn, l.costs, l.row, l.nums[i], i)
  }

  // ---------- What reaches whom ----------

  ghost predicate Ascends(r: seq<int>) {
    forall a, b :: 0 <= a < b < |r| ==> r[a] < r[b]
  }

  lemma AscendsOn(r: seq<int>, x: int)
    requires Ascends(r) && forall v :: v in r ==> v < x
    ensures Ascends(r + [x])
  {
    forall a | 0 <= a < |r|
      ensures r[a] < x
    {
      assert r[a] in r;
    }
  }

  /** The neighbours are listed once each, in order. */
  lemma {:induction false} RecipientsAscend(conn: seq<bool>, me: int, except: int, k: nat)
    requires k <= |conn|
    ensures Ascends(Recipients(conn, me, except, k))
    decreases k
  {
    if k > 0 {
      RecipientsAscend(conn, me, except, k - 1);
      var rs := Recipients(conn, me, except, k - 1);
      AscendsOn(rs, k - 1);
      assert rs + [] == rs;
    }
  }

  /** By link, and for one link by neighbour. */
  predicate Earlier(x: Send, y: Send) {
    x.lsp.neighbour < y.lsp.neighbour || (x.lsp.neighbour == y.lsp.neighbour && x.to < y.to)
  }

  /** A packet of a flood: it goes to a neighbour, and is about a link below k that the router knows about,
      at the cost in its own matrix, under the next number and with thirteen hops to go. */
  ghost predicate FloodPacket(me: int, l: Links, k: int, s: Send)
    requires LinksOk(me, l)
  {
    var i := s.lsp.neighbour;
    && Known(me, l, i) && i < k && s.lsp == Lsp(me, i, l.row[i], l.nums[i] + 1, 13)
    && 0 <= s.to < |l.conn| && s.to != me && l.conn[s.to]
  }

  ghost predicate OnlyPackets(me: int, l: Links, a: int, b: int, ss: seq<Send>)
    requires LinksOk(me, l)
  {
    forall j :: 0 <= j < |ss| ==> FloodPacket(me, l, b, ss[j]) && a <= ss[j].lsp.neighbour
  }

  ghost predicate EveryPacket(me: int, l: Links, a: int, b: int, ss: seq<Send>)
    requires LinksOk(me, l)
  {
    forall s :: FloodPacket(me, l, b, s) && a <= s.lsp.neighbour ==> s in ss
  }

  ghost predicate InOrder(ss: seq<Send>) {
    forall j, j' :: 0 <= j < j' < |ss| ==> Earlier(ss[j], ss[j'])
  }

  /** All of a flood about the links from a up to b: exactly those packets, once each, in order. */
  ghost predicate AllPackets(me: int, l: Links, a: int, b: int, ss: seq<Send>)
    requires LinksOk(me, l)
  {
    OnlyPackets(me, l, a, b, ss) && EveryPacket(me, l, a, b, ss) && InOrder(ss)
  }

  /** The packets about one link: one each for the given neighbours. */
  ghost predicate PacketsTo(me: int, l: Links, i: int, rs: seq<int>, ss: seq<Send>)
    requires LinksOk(me, l) && Known(me, l, i)
  {
    |ss| == |rs| && forall j :: 0 <= j < |rs| ==> ss[j] == Send(rs[j], Lsp(me, i, l.row[i], l.nums[i] + 1, 13))
  }

  lemma AboutKnown(me: int, l: Links, i: nat, rs: seq<int>, ss: seq<Send>)
    requires LinksOk(me, l) && Known(me, l, i) && ss == SentAbout(me, l, i)
    requires rs == Recipients(l.conn, me, me, |l.conn|)
    ensures PacketsTo(me, l, i, rs, ss)
  {
  }

  lemma ToAll(me: int, l: Links, i: nat, rs: seq<int>, ss: seq<Send>)
    requires LinksOk(me, l) && Known(me, l, i) && PacketsTo(me, l, i, rs, ss) && Ascends(rs)
    requires forall u :: u in rs <==> 0 <= u < |l.conn| && l.conn[u] && u != me
    ensures AllPackets(me, l, i, i + 1, ss)
  {
    forall j | 0 <= j < |ss|
      ensures FloodPacket(me, l, i + 1, ss[j])
    {
      assert rs[j] in rs;
    }
    forall s | FloodPacket(me, l, i + 1, s) && i <= s.lsp.neighbour
      ensures s in ss
    {
      var j :| 0 <= j < |rs| && rs[j] == s.to;
      assert ss[j] == s;
    }
  }

  lemma AboutOne(me: int, l: Links, i: nat, ss: seq<Send>)
    requires LinksOk(me, l) && i < |l.conn| && ss == SentAbout(me, l, i)
    ensures AllPackets(me, l, i, i + 1, ss)
  {
    if Known(me, l, i) {
      var rs := Recipients(l.conn, me, me, |l.conn|);
      AboutKnown(me, l, i, rs, ss);
      RecipientsAscend(l.conn, me, me, |l.conn|);
      ToAll(me, l, i, rs, ss);
    } else {
      assert ss == [];
    }
  }

  /** The packets about one more link. */
  lemma PacketsJoin(me: int, l: Links, b: int, before: seq<Send>, more: seq<Send>, ss: seq<Send>)
    requires LinksOk(me, l) && 0 <= b && ss == before + more
    requires AllPackets(me, l, 0, b, before) && AllPackets(me, l, b, b + 1, more)
    ensures AllPackets(me, l, 0, b + 1, ss)
  {
    forall s | FloodPacket(me, l, b + 1, s) && 0 <= s.lsp.neighbour
      ensures s in ss
    {
      if s.lsp.neighbour < b {
        assert FloodPacket(me, l, b, s);
      }
    }
  }

  lemma SentSplit(me: int, l: Links, k: nat)
    requires LinksOk(me, l) && k < |l.conn|
    ensures Sent(me, l, k + 1) == Sent(me, l, k) + SentAbout(me, l, k)
  {
  }

  lemma OneMoreLink(me: int, l: Links, k: nat, before: seq<Send>, ss: seq<Send>)
    requires LinksOk(me, l) && 0 < k <= |l.conn| && AllPackets(me, l, 0, k - 1, before)
    requires ss == before + SentAbout(me, l, k - 1)
    ensures AllPackets(me, l, 0, k, ss)
  {
    var more := SentAbout(me, l, k - 1);
    AboutOne(me, l, k - 1, more);
    PacketsJoin(me, l, k - 1, before, more, ss);
  }

  /** A flood tells every neighbour about every link that is up or known to have gone down exactly once,
      in order, with the cost in the router's own matrix, and nothing else. */
  lemma {:induction false} FloodTellsAll(me: int, l: Links, k: nat, ss: seq<Send>)
    requires LinksOk(me, l) && k <= |l.conn| && ss == Sent(me, l, k)
    ensures AllPackets(me, l, 0, k, ss)
    decreases k
  {
    if k == 0 {
      assert ss == [];
    } else {
      var before := Sent(me, l, k - 1);
      FloodTellsAll(me, l, k - 1, before);
      SentSplit(me, l, k - 1);
      OneMoreLink(me, l, k, before, ss);
    }
  }

  // ---------- As steps of the network ----------

  /** Packets that router `from` has handed to the network, with the history that they have there. */
  function InFlight(from: int, ss: seq<Send>): (r: seq<Msg>)
    ensures |r| == |ss| && forall i :: 0 <= i < |ss| ==> r[i] == Msg(from, ss[i].to, ss[i].lsp, [from])
  {
    seq(|ss|, i requires 0 <= i < |ss| => Msg(from, ss[i].to, ss[i].lsp, [from]))
  }

  lemma InFlightJoin(from: int, a: seq<Send>, b: seq<Send>)
    ensures multiset(InFlight(from, a + b)) == multiset(InFlight(from, a)) + multiset(InFlight(from, b))
  {
    assert InFlight(from, a + b) == InFlight(from, a) + InFlight(from, b);
  }

  /** The network after an announcement. */
  ghost function Originated(net: Net, s: int, n: int, cost: int, enter: bool): (net': Net)
    requires 0 <= s < |net.conn|
    ensures Originate(net, net', s, n, cost, enter)
  {
    var q := Num(net, s, s, n) + 1;
    net.(nums := net.nums[(s, s, n) := q],
         mat := if enter then Entered(net.mat, s, s, n, cost) else net.mat,
         flight := net.flight + Sends(net, s, s, Lsp(s, n, cost, q, TTL), [s]),
         issued := net.issued[(s, n, q) := cost],
         held := net.held[(s, s, n) := cost])
  }

  /** The router is node `me` of a network. The link to h, if it is a node, has just come up and is not yet
      entered in the network's matrix. */
  ghost predicate IsNode(net: Net, me: int, l: Links, h: int)
    requires LinksOk(me, l)
  {
    && me < |net.conn| && net.conn[me] == l.conn
    && (forall i :: 0 <= i < |l.conn| ==> Num(net, me, me, i) == l.nums[i])
    && (forall i :: 0 <= i < |l.conn| && i != h ==> MatAt(net, me, me, i) == l.row[i])
  }

  /** The events by which the router announces the links below k that are up or known to have gone down, in
      order: each with the cost in its own matrix, which it enters when the link has just come up. */
  ghost function Announcements(me: int, l: Links, h: int, k: nat): (events: seq<Event>)
    requires LinksOk(me, l) && k <= |l.conn|
    decreases k
  {
    if k == 0 then []
    else Announcements(me, l, h, k - 1)
         + if Known(me, l, k - 1) then [EOriginate(me, k - 1, l.row[k - 1], k - 1 == h)] else []
  }

  ghost predicate Counted(net: Net, me: int, l: Links, k: nat)
    requires LinksOk(me, l)
  {
    forall i :: 0 <= i < |l.conn| ==>
      Num(net, me, me, i) == l.nums[i] + if i < k && Known(me, l, i) then 1 else 0
  }

  ghost predicate Matching(net: Net, me: int, l: Links, h: int, k: nat)
    requires LinksOk(me, l)
  {
    forall i :: 0 <= i < |l.conn| && (i != h || (i < k && Known(me, l, i))) ==> MatAt(net, me, me, i) == l.row[i]
  }

  /** How the network has changed after the announcements of the links below k. */
  ghost predicate Flooded(net: Net, net': Net, me: int, l: Links, h: int, k: nat)
    requires LinksOk(me, l) && k <= |l.conn|
  {
    && net'.conn == net.conn && net'.flight == net.flight + multiset(InFlight(me, Sent(me, l, k)))
    && Counted(net', me, l, k) && Matching(net', me, l, h, k)
  }

  /** What one announcement puts in flight is what the flood sends about the link. */
  lemma OneFlight(net: Net, me: int, l: Links, i: nat)
    requires LinksOk(me, l) && Known(me, l, i) && me < |net.conn| && net.conn[me] == l.conn
    ensures multiset(InFlight(me, SentAbout(me, l, i))) ==
            Sends(net, me, me, Lsp(me, i, l.row[i], l.nums[i] + 1, TTL), [me])
  {
    var rs, lsp := Recipients(l.conn, me, me, |l.conn|), Lsp(me, i, l.row[i], l.nums[i] + 1, TTL);
    assert SentAbout(me, l, i) == SendAll(rs, lsp);
    SendsAreCopies(me, rs, lsp, [me]);
    assert InFlight(me, SendAll(rs, lsp)) == Copies(me, rs, lsp, [me]);
  }

  lemma CountOne(net: Net, net': Net, me: int, l: Links, h: int, k: nat)
    requires LinksOk(me, l) && k < |l.conn| && Known(me, l, k)
    requires Counted(net, me, l, k) && Matching(net, me, l, h, k)
    requires Originate(net, net', me, k, l.row[k], k == h)
    ensures Counted(net', me, l, k + 1) && Matching(net', me, l, h, k + 1)
  {
  }

  lemma AnnounceOne(net: Net, mid: Net, net': Net, me: int, l: Links, h: int, k: nat)
    requires LinksOk(me, l) && k < |l.conn| && Known(me, l, k) && IsNode(net, me, l, h)
    requires Flooded(net, mid, me, l, h, k) && Originate(mid, net', me, k, l.row[k], k == h)
    ensures Flooded(net, net', me, l, h, k + 1)
  {
    OneFlight(mid, me, l, k);
    SentSplit(me, l, k);
    InFlightJoin(me, Sent(me, l, k), SentAbout(me, l, k));
    CountOne(mid, net', me, l, h, k);
  }

  lemma AnnounceNone(net: Net, net': Net, me: int, l: Links, h: int, k: nat)
    requires LinksOk(me, l) && k < |l.conn| && !Known(me, l, k)
    requires Flooded(net, net', me, l, h, k)
    ensures Flooded(net, net', me, l, h, k + 1)
  {
    SentSplit(me, l, k);
    assert SentAbout(me, l, k) == [];
    assert Sent(me, l, k) + [] == Sent(me, l, k);
  }

  lemma RunOn(nets: seq<Net>, events: seq<Event>, net': Net, e: Event)
    requires Run(nets, events) && Step(nets[|events|], net', e)
    ensures Run(nets + [net'], events + [e])
  {
    var nets', events' := nets + [net'], events + [e];
    forall k | 0 <= k < |events'|
      ensures StepAt(nets', events', k)
    {
      if k < |events| {
        assert StepAt(nets, events, k);
      }
    }
  }

  /** A run that consists of the announcements of the links below k, and what it makes of the network. */
  ghost predicate FloodRun(nets: seq<Net>, net: Net, me: int, l: Links, h: int, k: nat)
    requires LinksOk(me, l) && k <= |l.conn|
  {
    Run(nets, Announcements(me, l, h, k)) && nets[0] == net && Flooded(net, nets[|nets| - 1], me, l, h, k)
  }

  lemma FloodStart(net: Net, me: int, l: Links, h: int)
    requires LinksOk(me, l) && IsNode(net, me, l, h)
    ensures FloodRun([net], net, me, l, h, 0)
  {
    assert net.flight + multiset(InFlight(me, [])) == net.flight;
  }

  lemma FloodOneMore(nets: seq<Net>, net: Net, me: int, l: Links, h: int, k: nat) returns (nets': seq<Net>)
    requires LinksOk(me, l) && k < |l.conn| && IsNode(net, me, l, h) && FloodRun(nets, net, me, l, h, k)
    ensures FloodRun(nets', net, me, l, h, k + 1)
  {
    var mid := nets[|nets| - 1];
    if Known(me, l, k) {
      var net' := Originated(mid, me, k, l.row[k], k == h);
      AnnounceOne(net, mid, net', me, l, h, k);
      RunOn(nets, Announcements(me, l, h, k), net', EOriginate(me, k, l.row[k], k == h));
      nets' := nets + [net'];
    } else {
      AnnounceNone(net, mid, me, l, h, k);
      nets' := nets;
      assert Announcements(me, l, h, k) + [] == Announcements(me, l, h, k);
    }
  }

  /** A flood is a run of the network: one announcement for every link that is up or known to have gone
      down, in order, each with the cost in the router's own matrix. It ends with the router's packets in
      flight, its counters and its row of the matrix. */
  lemma {:induction false} FloodIsRun(net: Net, me: int, l: Links, h: int, k: nat) returns (nets: seq<Net>)
    requires LinksOk(me, l) && k <= |l.conn| && IsNode(net, me, l, h)
    ensures FloodRun(nets, net, me, l, h, k)
    decreases k
  {
    if k == 0 {
      nets := [net];
      FloodStart(net, me, l, h);
    } else {
      var before := FloodIsRun(net, me, l, h, k - 1);
      nets := FloodOneMore(before, net, me, l, h, k - 1);
    }
  }

  ghost function LinksOf(r: Router): Links
    reads r.connections, r.costs, r.adjMatrix, r.seqNumMatrix
    requires r.Valid()
  {
    Links(r.connections[..], r.costs[..], r.Row(r.adjMatrix, r.me), r.Row(r.seqNumMatrix, r.me))
  }

  /** A router whose matrix agrees with its own links: its flood, as `FloodLsp` sends it, is all packets
      about them, and a run of every network that it is part of. */
  lemma RouterFloods(r: Router, net: Net) returns (nets: seq<Net>)
    requires r.Valid() && r.OwnLinksAgree() && IsNode(net, r.me, LinksOf(r), -1)
    ensures AllPackets(r.me, LinksOf(r), 0, V, Sent(r.me, LinksOf(r), V))
    ensures FloodRun(nets, net, r.me, LinksOf(r), -1, V)
  {
    FloodTellsAll(r.me, LinksOf(r), V, Sent(r.me, LinksOf(r), V));
    nets := FloodIsRun(net, r.me, LinksOf(r), -1, V);
  }
}
