/** What a finished flood is for: all routers hold the same matrix, and deliver by it. */
module FloodAgreement {
  import opened Graphs
  import opened ForwardingTable
  import opened Flooding
  import opened FloodCompleteness
  import opened HopByHop

  // ---------- Where the entries of a matrix come from ----------

  /** What a router that is no end of the link between s and n has entered for it: nothing before any
      announcement, and otherwise the cost of the latest announcement it took over from one of the ends. */
  ghost predicate Written(net: Net, v: int, s: int, n: int) {
    || (Num(net, v, s, n) == 0 == Num(net, v, n, s) && MatAt(net, v, s, n) == 0)
    || TakenFrom(net, v, s, n, s, n)
    || TakenFrom(net, v, s, n, n, s)
  }

  ghost predicate TakenFrom(net: Net, v: int, s: int, n: int, x: int, y: int) {
    0 < Num(net, v, x, y) && (v, x, y) in net.held && MatAt(net, v, s, n) == net.held[(v, x, y)]
  }

  ghost predicate MatrixInv(net: Net) {
    && (forall v, s, n :: v != s && v != n ==> Written(net, v, s, n))
    && (forall v, s, n {:trigger MatAt(net, v, s, n)} :: MatAt(net, v, s, n) == MatAt(net, v, n, s))
  }

  lemma OriginateMatrix(net: Net, net': Net, s: int, n: int, cost: int, enter: bool)
    requires MatrixInv(net) && Originate(net, net', s, n, cost, enter)
    ensures MatrixInv(net')
  {
    forall v, x, y | v != x && v != y
      ensures Written(net', v, x, y)
    {
      assert Written(net, v, x, y);
    }
    forall v, x, y
      ensures MatAt(net', v, x, y) == MatAt(net', v, y, x)
    {
      assert MatAt(net, v, x, y) == MatAt(net, v, y, x);
    }
  }

  lemma DeliverMatrix(net: Net, net': Net, m: Msg)
    requires Authority(net) && MatrixInv(net) && Deliver(net, net', m)
    ensures MatrixInv(net')
  {
    forall v, x, y | v != x && v != y
      ensures Written(net', v, x, y)
    {
      DeliverWritten(net, net', m, v, x, y);
    }
    forall v, x, y
      ensures MatAt(net', v, x, y) == MatAt(net', v, y, x)
    {
      assert MatAt(net, v, x, y) == MatAt(net, v, y, x);
    }
  }

  lemma DeliverWritten(net: Net, net': Net, m: Msg, v: int, x: int, y: int)
    requires Authority(net) && Deliver(net, net', m) && Written(net, v, x, y) && v != x && v != y
    ensures Written(net', v, x, y)
  {
    var s, n := m.lsp.source, m.lsp.neighbour;
    if Accepts(Num(net, m.to, s, n), m.lsp) && v == m.to && ((x, y) == (s, n) || (x, y) == (n, s)) {
      assert Bounded(net, m.to, s, n);
      TakenOver(net, net', m, x, y);
    } else {
      SameEntry(net, net', m, v, x, y);
    }
  }

  /** The entry of a link whose announcement is taken over. */
  lemma TakenOver(net: Net, net': Net, m: Msg, x: int, y: int)
    requires Deliver(net, net', m) && Accepts(Num(net, m.to, m.lsp.source, m.lsp.neighbour), m.lsp)
    requires 0 <= Num(net, m.to, m.lsp.source, m.lsp.neighbour)
    requires (x, y) == (m.lsp.source, m.lsp.neighbour) || (x, y) == (m.lsp.neighbour, m.lsp.source)
    ensures TakenFrom(net', m.to, x, y, m.lsp.source, m.lsp.neighbour)
  {
  }

  /** Any other entry. */
  lemma SameEntry(net: Net, net': Net, m: Msg, v: int, x: int, y: int)
    requires Deliver(net, net', m) && Written(net, v, x, y)
    requires !Accepts(Num(net, m.to, m.lsp.source, m.lsp.neighbour), m.lsp) || v != m.to ||
             ((x, y) != (m.lsp.source, m.lsp.neighbour) && (x, y) != (m.lsp.neighbour, m.lsp.source))
    ensures Written(net', v, x, y)
  {
    assert Num(net', v, x, y) == Num(net, v, x, y) && Num(net', v, y, x) == Num(net, v, y, x);
    assert MatAt(net', v, x, y) == MatAt(net, v, x, y);
  }

  lemma StepMatrix(net: Net, net': Net, e: Event)
    requires Authority(net) && MatrixInv(net) && Step(net, net', e)
    ensures MatrixInv(net')
  {
    match e
    case EOriginate(s, n, cost, enter) => OriginateMatrix(net, net', s, n, cost, enter);
    case EDeliver(m) => DeliverMatrix(net, net', m);
    case _ => SameMatrices(net, net');
  }

  lemma SameMatrices(net: Net, net': Net)
    requires MatrixInv(net) && net'.nums == net.nums && net'.mat == net.mat && net'.held == net.held
    ensures MatrixInv(net')
  {
    forall v, x, y | v != x && v != y
      ensures Written(net', v, x, y)
    {
      assert Written(net, v, x, y);
    }
    forall v, x, y
      ensures MatAt(net', v, x, y) == MatAt(net', v, y, x)
    {
      assert MatAt(net, v, x, y) == MatAt(net, v, y, x);
    }
  }

  lemma {:induction false} RunMatrix(nets: seq<Net>, events: seq<Event>, k: nat)
    requires Run(nets, events) && Init(nets[0]) && k < |nets|
    ensures MatrixInv(nets[k])
  {
    if k > 0 {
      RunMatrix(nets, events, k - 1);
      RunAuthority(nets, events, k - 1);
      assert StepAt(nets, events, k - 1);
      StepMatrix(nets[k - 1], nets[k], events[k - 1]);
    }
  }

  // ---------- Agreement after a flood ----------

  /** From time t0 on the network is static, connected and lossless and has at most as many routers as a
      packet may make hops. */
  ghost predicate Still(nets: seq<Net>, events: seq<Event>, t0: nat) {
    && Run(nets, events) && Init(nets[0]) && t0 <= |events|
    && (forall i :: t0 <= i < |events| ==> Calm(events[i]))
    && var conn := nets[t0].conn;
       && |conn| <= TTL
       && (forall u, v :: Link(conn, u, v) ==> Link(conn, v, u))
       && (forall u, v :: 0 <= u < |conn| && 0 <= v < |conn| ==> Connected(conn, u, v))
  }

  ghost predicate Connected(conn: Links, u: int, v: int) {
    exists p :: Walk(conn, u, p, v)
  }

  /** Every link that has been announced at all has been announced since t0. */
  ghost predicate Reannounced(net: Net, events: seq<Event>, t0: nat) {
    forall s, n :: 0 <= s < |net.conn| && 0 < Num(net, s, s, n) ==> AnnouncedSince(events, t0, s, n)
  }

  ghost predicate AnnouncedSince(events: seq<Event>, t0: nat, s: int, n: int) {
    exists k :: t0 <= k < |events| && Announces(events[k], s, n)
  }

  /** What every router knows of its own links, and what it has announced last about them, is what the
      symmetric matrix a says: both ends of a link announce the same cost. */
  ghost predicate EndsAgree(net: Net, a: Matrix) {
    && Square(a) && |a| == |net.conn|
    && (forall s, n :: 0 <= s < |a| && 0 <= n < |a| ==> EndAgrees(net, a, s, n))
  }

  ghost predicate EndAgrees(net: Net, a: Matrix, s: int, n: int)
    requires Square(a) && 0 <= s < |a| && 0 <= n < |a|
  {
    var q := Num(net, s, s, n);
    && a[s][n] == a[n][s] == MatAt(net, s, s, n)
    && (0 < q ==> (s, n, q) in net.issued && net.issued[(s, n, q)] == a[s][n])
    && (q == 0 == Num(net, n, n, s) ==> a[s][n] == 0)
  }

  lemma {:induction false} CalmConn(nets: seq<Net>, events: seq<Event>, t0: nat, k: nat)
    requires Run(nets, events) && t0 <= k <= |events| && forall i :: t0 <= i < |events| ==> Calm(events[i])
    ensures nets[k].conn == nets[t0].conn
    decreases k
  {
    if k > t0 {
      CalmConn(nets, events, t0, k - 1);
      assert StepAt(nets, events, k - 1);
    }
  }

  lemma {:induction false} NodesBelowSize(n: nat)
    ensures |NodesBelow(n)| == n
  {
    if n > 0 {
      NodesBelowSize(n - 1);
    }
  }

  /** Everybody holds the latest number of every announced link. */
  lemma Reached(nets: seq<Net>, events: seq<Event>, t0: nat, v: int, s: int, n: int)
    requires Still(nets, events, t0) && nets[|events|].flight == multiset{}
    requires Reannounced(nets[|events|], events, t0)
    requires 0 <= v < |nets[t0].conn| && 0 <= s < |nets[t0].conn|
    ensures var end := nets[|events|]; 0 < Num(end, s, s, n) ==> Num(end, v, s, n) == Num(end, s, s, n)
  {
    var end, conn := nets[|events|], nets[t0].conn;
    CalmConn(nets, events, t0, |events|);
    if 0 < Num(end, s, s, n) {
      assert AnnouncedSince(events, t0, s, n);
      var k :| t0 <= k < |events| && Announces(events[k], s, n);
      CalmConn(nets, events, t0, k);
      RunAuthority(nets, events, t0);
      NodesBelowSize(|conn|);
      assert Component(conn, s, NodesBelow(|conn|));
      assert Connected(conn, s, v);
      var p :| Walk(conn, s, p, v);
      FloodComplete(nets, events, k, NodesBelow(|conn|), s, n, p, v);
    }
  }

  /** Once nothing is in flight any more, all routers hold the same matrix. */
  lemma FloodAgree(nets: seq<Net>, events: seq<Event>, t0: nat, a: Matrix, v: int, s: int, n: int)
    requires Still(nets, events, t0) && nets[|events|].flight == multiset{}
    requires Reannounced(nets[|events|], events, t0) && EndsAgree(nets[|events|], a)
    requires 0 <= v < |a| && 0 <= s < |a| && 0 <= n < |a|
    ensures MatAt(nets[|events|], v, s, n) == a[s][n]
  {
    var end := nets[|events|];
    CalmConn(nets, events, t0, |events|);
    RunMatrix(nets, events, |events|);
    RunAuthority(nets, events, |events|);
    assert EndAgrees(end, a, s, n) && EndAgrees(end, a, n, s);
    if v == s || v == n {
      assert MatAt(end, v, s, n) == MatAt(end, v, n, s);
    } else {
      assert Written(end, v, s, n);
      Reached(nets, events, t0, v, s, n);
      Reached(nets, events, t0, v, n, s);
      assert Bounded(end, v, s, n) && Bounded(end, v, n, s);
      assert 0 < Num(end, v, s, n) ==> HeldAuthority(end, v, s, n);
      assert 0 < Num(end, v, n, s) ==> HeldAuthority(end, v, n, s);
    }
  }

  // ---------- Delivery after a flood ----------

  ghost function MatrixOf(net: Net, v: int): (a: Matrix)
    ensures |a| == |net.conn| && Square(a)
    ensures forall s, n :: 0 <= s < |a| && 0 <= n < |a| ==> a[s][n] == MatAt(net, v, s, n)
  {
    seq(|net.conn|, s => seq(|net.conn|, n => MatAt(net, v, s, n)))
  }

  /** Each router's table was computed from its own matrix, whose entries for its own links agree with its
      connection state. */
  ghost predicate TablesFrom(net: Net, tables: seq<Table>) {
    |tables| == |net.conn| && forall v :: 0 <= v < |tables| ==> TableFromOwnGraph(MatrixOf(net, v), v, tables[v])
  }

  /** From the announcements to the packets: after a flood the routers' own tables deliver every packet
      along a shortest path of the network that the routers have announced. */
  lemma FloodedNetworkDelivers(nets: seq<Net>, events: seq<Event>, t0: nat, a: Matrix, tables: seq<Table>, r: int,
                               d: int)
    requires Still(nets, events, t0) && nets[|events|].flight == multiset{}
    requires Reannounced(nets[|events|], events, t0) && EndsAgree(nets[|events|], a)
    requires TablesFrom(nets[|events|], tables) && 0 <= r < |a| && Reach(a, r, d)
    ensures Converged(a, tables)
    ensures var p := Trace(a, tables, r, d); IsPath(a, r, p, d) && PathCost(a, r, p, d) == Dist(a, r, d)
  {
    var end := nets[|events|];
    forall v | 0 <= v < |tables|
      ensures TableFromOwnGraph(a, v, tables[v])
    {
      forall s, n | 0 <= s < |a| && 0 <= n < |a|
        ensures MatrixOf(end, v)[s][n] == a[s][n]
      {
        FloodAgree(nets, events, t0, a, v, s, n);
      }
      SameMatrix(MatrixOf(end, v), a);
    }
    DeliversShortest(a, tables, r, d);
  }
}
