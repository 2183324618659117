/** A link-state router: its connection state, its copy of the network's cost matrix and the
    forwarding table it derives from them. */
module LinkStateRouter {
  import opened Graphs
  import opened ForwardingTable
  import opened SearchOutcome
  import opened Flooding

  const V := 256  // number of nodes

  /** A datagram handed to the network. */
  datatype Send = Send(to: int, lsp: Lsp)

  function SendAll(rs: seq<int>, lsp: Lsp): (r: seq<Send>)
    ensures |r| == |rs| && forall i :: 0 <= i < |rs| ==> r[i] == Send(rs[i], lsp)
  {
    seq(|rs|, i requires 0 <= i < |rs| => Send(rs[i], lsp))
  }

  lemma Regroup(a: seq<Send>, b: seq<Send>, c: seq<Send>)
    ensures (a + b) + c == a + (b + c)
  {
  }

  /** What one more neighbour adds. */
  lemma SendOneMore(conn: seq<bool>, me: int, except: int, i: nat, lsp: Lsp)
    requires i < |conn|
    ensures SendAll(Recipients(conn, me, except, i + 1), lsp) ==
            SendAll(Recipients(conn, me, except, i), lsp)
            + if i != me && conn[i] && i != except then [Send(i, lsp)] else []
  {
    var rs := Recipients(conn, me, except, i);
    assert SendAll(rs + [i], lsp) == SendAll(rs, lsp) + [Send(i, lsp)];
    assert rs + [] == rs;
  }

  /** A router's sends are the packets that the network model puts in flight for it. */
  lemma {:induction false} SendsAreCopies(from: int, rs: seq<int>, lsp: Lsp, trail: seq<int>)
    ensures var cs := Copies(from, rs, lsp, trail);
            |cs| == |rs| && forall i :: 0 <= i < |rs| ==>
              cs[i] == Msg(from, SendAll(rs, lsp)[i].to, SendAll(rs, lsp)[i].lsp, trail)
    decreases |rs|
  {
    if rs != [] {
      var cs, ss := Copies(from, rs, lsp, trail), SendAll(rs, lsp);
      SendsAreCopies(from, rs[1..], lsp, trail);
      assert cs[1..] == Copies(from, rs[1..], lsp, trail) && ss[1..] == SendAll(rs[1..], lsp);
      assert forall i :: 0 < i < |rs| ==> cs[i] == cs[1..][i - 1] && ss[i] == ss[1..][i - 1];
    }
  }

  /** What a router does with a packet for a destination. */
  datatype Decision = Deliver | Unreachable | Forward(nextHop: int)

  class Router {
    const me: int
    const connections: array<bool>
    const costs: array<int>
    const adjMatrix: array2<int>
    const seqNumMatrix: array2<int>
    var confirmedMap: Table
    var sent: seq<Send>

    ghost predicate Valid()
      reads connections, costs, adjMatrix
    {
      && 0 <= me < V
      && connections.Length == V && costs.Length == V
      && adjMatrix.Length0 == V && adjMatrix.Length1 == V
      && seqNumMatrix.Length0 == V && seqNumMatrix.Length1 == V
      && adjMatrix != seqNumMatrix
      && !connections[me]
      && (forall i :: 0 <= i < V && i != me ==> 0 < costs[i])
      && (forall u, v :: 0 <= u < V && 0 <= v < V ==> adjMatrix[u, v] == adjMatrix[v, u])
    }

    /** A router that knows its costs and no links yet. */
    constructor (id: int, initial: seq<int>)
      requires 0 <= id < V && |initial| == V && forall i :: 0 <= i < V ==> 0 < initial[i]
      ensures Valid() && TableCurrent() && OwnLinksAgree() && me == id && sent == [] && confirmedMap == map[]
      ensures costs[..] == initial[id := 0] && forall i {:trigger connections[i]} :: 0 <= i < V ==> !connections[i]
      ensures forall u, v :: 0 <= u < V && 0 <= v < V ==> adjMatrix[u, v] == 0 && seqNumMatrix[u, v] == 0
    {
      me := id;
      connections := new bool[V](_ => false);
      costs := new int[V](i requires 0 <= i < V => if i == id then 0 else initial[i]);
      adjMatrix := new int[V, V]((_, _) => 0);
      seqNumMatrix := new int[V, V]((_, _) => 0);
      confirmedMap, sent := map[], [];
    }

    ghost function Adj(): (a: Matrix)
      reads adjMatrix
      requires adjMatrix.Length0 == V && adjMatrix.Length1 == V
      ensures |a| == V && Square(a)
      ensures forall u, v :: 0 <= u < V && 0 <= v < V ==> a[u][v] == adjMatrix[u, v]
    {
      seq(V, u requires 0 <= u < V reads adjMatrix =>
        seq(V, v requires 0 <= v < V reads adjMatrix => adjMatrix[u, v]))
    }

    /** The graph the router computes on. Its own links come from `connections` and `costs`. */
    ghost function Graph(): (g: Matrix)
      reads connections, costs, adjMatrix
      requires Valid()
      ensures |g| == V
    {
      Adj()[me := seq(V, i requires 0 <= i < V reads connections, costs => if connections[i] then costs[i] else 0)]
    }

    lemma GraphFacts()
      requires Valid()
      ensures GraphOf(Graph(), Adj(), me)
      ensures forall i :: 0 <= i < V ==> Graph()[me][i] == if connections[i] then costs[i] else 0
    {
    }

    /** The position of the first cheapest entry. */
    static method Cheapest(t: seq<Entry>) returns (idx: nat)
      requires t != []
      ensures idx < |t|
      ensures forall x :: 0 <= x < |t| ==> t[idx].cost <= t[x].cost
      ensures forall x :: 0 <= x < idx ==> t[idx].cost < t[x].cost
    {
      var lowestCost := t[0].cost;
      idx := 0;
      for i := 1 to |t|
        invariant idx < i && lowestCost == t[idx].cost
        invariant forall x :: 0 <= x < i ==> lowestCost <= t[x].cost
        invariant forall x :: 0 <= x < idx ==> lowestCost < t[x].cost
      {
        if t[i].cost < lowestCost {
          lowestCost := t[i].cost;
          idx := i;
        }
      }
    }

    /** The tie-break: collects the other confirmed neighbours of i that lie on an equally cheap
        path and compares the lowest of them with the node being scanned. */
    method BreakTie(next: Entry, i: int, cost: int, hop: int) returns (r: int)
      requires Valid() && 0 <= i < V && 0 <= next.dest < V && next.dest != me
      requires next.dest in confirmedMap && confirmedMap[next.dest] == next
      ensures TieBroken(Adj(), me, confirmedMap, next.dest, i, cost, hop, r)
    {
      var tieNeighbors: seq<int> := [];
      for k := 0 to V
        invariant forall j :: j in tieNeighbors ==> TiedNeighbour(Adj(), next.dest, confirmedMap, j, i, cost)
        invariant forall j :: 0 <= j < k && TiedNeighbour(Adj(), next.dest, confirmedMap, j, i, cost) ==>
                  j in tieNeighbors
      {
        if k != next.dest && adjMatrix[i, k] > 0 && k in confirmedMap {
          var pathCost := confirmedMap[k].cost + adjMatrix[i, k];
          if pathCost == cost {
            tieNeighbors := tieNeighbors + [k];
          }
        }
      }
      if tieNeighbors == [] {
        return hop;
      }
      var lowest := tieNeighbors[0];
      for j := 1 to |tieNeighbors|
        invariant lowest in tieNeighbors
        invariant forall x :: 0 <= x < j ==> lowest <= tieNeighbors[x]
      {
        if tieNeighbors[j] < lowest {
          lowest := tieNeighbors[j];
        }
      }
      assert LowestTied(Adj(), next.dest, confirmedMap, lowest, i, cost);
      if next.dest < lowest {
        r := next.nexthop;
      } else if lowest != me && hop != confirmedMap[lowest].nexthop {
        r := confirmedMap[lowest].nexthop;
      } else {
        r := hop;
      }
    }

    /** The position of the entry for i, or the length of the table. */
    static method Find(t: seq<Entry>, i: int) returns (x: nat)
      ensures x <= |t| && (x < |t| ==> t[x].dest == i)
      ensures forall y :: 0 <= y < x ==> t[y].dest != i
    {
      x := 0;
      while x < |t|
        invariant x <= |t|
        invariant forall y :: 0 <= y < x ==> t[y].dest != i
      {
        if t[x].dest == i {
          break;
        }
        x := x + 1;
      }
    }

    /** One step of the scan of the confirmed node `next`: its link to i, if there is one, may
        lower or redirect the tentative entry for i, or create it. */
    method ScanLink(tentative: seq<Entry>, next: Entry, i: int) returns (t: seq<Entry>)
      requires Valid() && 0 <= i < V && 0 <= next.dest < V && next.dest != me
      requires next.dest in confirmedMap && confirmedMap[next.dest] == next
      ensures ScannedLink(Adj(), me, confirmedMap, next, i, tentative, t)
    {
      t := tentative;
      if adjMatrix[next.dest, i] > 0 {
        var cost := next.cost + adjMatrix[next.dest, i];
        var x := Find(t, i);
        if x < |t| {
          if t[x].cost > cost {
            t := t[x := Entry(i, cost, next.nexthop)];
          } else if t[x].cost == cost {
            var hop := BreakTie(next, i, cost, t[x].nexthop);
            t := t[x := t[x].(nexthop := hop)];
          }
        } else if i !in confirmedMap {
          t := t + [Entry(i, cost, next.nexthop)];
        }
      }
    }

    /** The neighbours, each at the cost of its link and reached directly. */
    method NeighbourEntries(ghost g: Matrix, ghost a: Matrix) returns (t: seq<Entry>)
      requires Valid() && g == Graph() && a == Adj()
      ensures SearchInv(g, me, SelfOnly(me), t, a)
    {
      GraphFacts();
      t := [];
      for i := 0 to V
        invariant NeighbourInv(g, me, i, t, a)
      {
        if connections[i] {
          NeighbourAdd(g, me, i, costs[i], t, a);
          t := t + [Entry(i, costs[i], i)];
        } else {
          NeighbourSkip(g, me, i, t, a);
        }
      }
      NeighbourDone(g, me, t, a);
    }

    /** Scans all links of a node that has just been confirmed. */
    method ScanNode(tentative: seq<Entry>, next: Entry, ghost g: Matrix, ghost a: Matrix) returns (t: seq<Entry>)
      requires Valid() && g == Graph() && a == Adj()
      requires ScanReady(g, me, confirmedMap, next, tentative, a)
      ensures TentativeInv(g, me, -1, 0, confirmedMap, t, a)
    {
      GraphFacts();
      ghost var c := confirmedMap;
      t := tentative;
      for i := 0 to V
        invariant TentativeInv(g, me, next.dest, i, c, t, a)
      {
        ghost var before := t;
        t := ScanLink(t, next, i);
        ScanRule(g, a, me, c, next, i, before, t);
      }
      ScanDone(g, me, next.dest, c, t, a);
    }

    /** One iteration of the search: confirms a cheapest tentative entry and scans its links. */
    method ConfirmNext(tentative: seq<Entry>, ghost g: Matrix, ghost a: Matrix) returns (t: seq<Entry>)
      requires Valid() && g == Graph() && a == Adj() && tentative != []
      requires SearchInv(g, me, confirmedMap, tentative, a)
      modifies this`confirmedMap
      ensures SearchInv(g, me, confirmedMap, t, a)
      ensures NodesBelow(V) - confirmedMap.Keys < NodesBelow(V) - old(confirmedMap).Keys
    {
      var nextIdx := Cheapest(tentative);
      var next := tentative[nextIdx];
      ConfirmStep(g, me, confirmedMap, tentative, nextIdx, a);
      confirmedMap := confirmedMap[next.dest := next];
      t := ScanNode(tentative[..nextIdx] + tentative[nextIdx + 1..], next, g, a);
    }

    /** Runs the search until nothing is tentative. */
    method Search(initial: seq<Entry>, ghost g: Matrix, ghost a: Matrix)
      requires Valid() && g == Graph() && a == Adj()
      requires SearchInv(g, me, confirmedMap, initial, a)
      modifies this`confirmedMap
      ensures SearchInv(g, me, confirmedMap, [], a)
    {
      var tentative := initial;
      while |tentative| > 0
        invariant SearchInv(g, me, confirmedMap, tentative, a)
        decreases NodesBelow(V) - confirmedMap.Keys
      {
        tentative := ConfirmNext(tentative, g, a);
      }
    }

    /** Rebuilds the forwarding table. It is sound in every case. Every entry that the tie-break decides by
        the rule is the canonical one, and all are when the matrix agrees with the connection state on the
        router's own links. */
    method UpdateFwdTable()
      requires Valid()
      modifies this`confirmedMap
      ensures FitsGraph(Graph(), Adj(), me, confirmedMap)
      ensures SelfRowAgrees(Graph(), Adj(), me) ==> confirmedMap == CanonicalTable(Graph(), me)
    {
      GraphFacts();
      ghost var g, a := Graph(), Adj();
      confirmedMap := map[];
      confirmedMap := confirmedMap[me := Entry(me, 0, -1)];
      assert confirmedMap.Keys == {me} && confirmedMap == SelfOnly(me);
      var tentative := NeighbourEntries(g, a);
      Search(tentative, g, a);
      assert Graph() == g && Adj() == a;
      SearchResult(g, a, me, confirmedMap);
      if SelfRowAgrees(g, a, me) {
        FitsIsCanonical(g, a, me, confirmedMap);
      }
    }

    // ---------- The events of the listening loop ----------

    /** The table is the one of the present graph; before the first link comes up it is empty. */
    ghost predicate TableCurrent()
      reads this, connections, costs, adjMatrix
      requires Valid()
    {
      || (confirmedMap == map[] && forall i :: 0 <= i < V ==> !connections[i])
      || FitsGraph(Graph(), Adj(), me, confirmedMap)
    }

    /** What the router's matrix says about a link of its own: its cost while it is up, no link otherwise. */
    static predicate LinkAgrees(up: bool, cost: int, entry: int) {
      if up then entry == cost else entry <= 0
    }

    /** The matrix agrees with the connection state on the router's own links. */
    ghost predicate OwnLinksAgree()
      reads connections, costs, adjMatrix
      requires Valid()
    {
      forall i {:trigger connections[i]} :: 0 <= i < V ==> LinkAgrees(connections[i], costs[i], adjMatrix[me, i])
    }

    /** This is the agreement under which the table is the canonical one. */
    lemma OwnLinksAgreeIff()
      requires Valid()
      ensures OwnLinksAgree() <==> SelfRowAgrees(Graph(), Adj(), me)
    {
      var g, a := Graph(), Adj();
      GraphFacts();
      if SelfRowAgrees(g, a, me) {
        forall i {:trigger connections[i]} | 0 <= i < V
          ensures LinkAgrees(connections[i], costs[i], adjMatrix[me, i])
        {
          assert Edge(g, me, i) <==> Edge(a, me, i);
        }
      }
      if OwnLinksAgree() {
        forall u
          ensures Edge(g, me, u) <==> Edge(a, me, u)
          ensures Edge(g, me, u) && Edge(a, me, u) ==> g[me][u] == a[me][u]
        {
          if 0 <= u < V {
            assert LinkAgrees(connections[u], costs[u], adjMatrix[me, u]);
          }
        }
      }
    }

    /** As long as events keep both, the table is the canonical one of the present graph; before the first link
        comes up it is empty. */
    lemma CurrentIsCanonical()
      requires Valid() && TableCurrent() && OwnLinksAgree()
      ensures confirmedMap == CanonicalTable(Graph(), me)
              || (confirmedMap == map[] && forall i :: 0 <= i < V ==> !connections[i])
    {
      OwnLinksAgreeIff();
      if FitsGraph(Graph(), Adj(), me, confirmedMap) {
        FitsIsCanonical(Graph(), Adj(), me, confirmedMap);
      }
    }

    /** One link has changed, and the matrix agrees about it. */
    twostate lemma OwnLinkKept(x: int)
      requires old(Valid()) && Valid() && 0 <= x < V && old(OwnLinksAgree())
      requires LinkAgrees(connections[x], costs[x], adjMatrix[me, x])
      requires forall i {:trigger connections[i]} :: 0 <= i < V && i != x ==>
                 connections[i] == old(connections[i]) && costs[i] == old(costs[i])
                 && adjMatrix[me, i] == old(adjMatrix[me, i])
      ensures OwnLinksAgree()
    {
    }

    lemma StillCurrent(g: Matrix, a: Matrix, c: Table)
      requires Valid() && g == Graph() && a == Adj() && c == confirmedMap && FitsGraph(g, a, me, c)
      ensures TableCurrent()
    {
    }

    /** Sends a packet to all neighbours but one. */
    method Broadcast(lsp: Lsp, except: int)
      requires connections.Length == V
      modifies this`sent
      ensures sent == old(sent) + SendAll(Recipients(connections[..], me, except, connections.Length), lsp)
    {
      ghost var conn := connections[..];
      ghost var out: seq<Send> := [];
      for i := 0 to connections.Length
        invariant sent == old(sent) + out && out == SendAll(Recipients(conn, me, except, i), lsp)
      {
        SendOneMore(conn, me, except, i, lsp);
        if i != me && connections[i] && i != except {
          sent := sent + [Send(i, lsp)];
          out := out + [Send(i, lsp)];
        }
      }
    }

    /** The router announces its link to i: it is up, or it is known to have gone down. */
    static predicate Announces(me: int, conn: seq<bool>, row: seq<int>, i: int)
      requires 0 <= i < |conn| && |row| == |conn|
    {
      i != me && (conn[i] || row[i] == -1)
    }

    /** What a periodic flood sends about the link to i. */
    static ghost function FloodSend(me: int, conn: seq<bool>, costs: seq<int>, row: seq<int>, num: int,
                                    i: nat): seq<Send>
      requires |conn| == |costs| == |row| && i < |conn|
    {
      if Announces(me, conn, row, i)
      then SendAll(Recipients(conn, me, me, |conn|), Lsp(me, i, if conn[i] then costs[i] else -1, num + 1, TTL))
      else []
    }

    /** All of it, for the links to the nodes below k. */
    static ghost function FloodSends(me: int, conn: seq<bool>, costs: seq<int>, row: seq<int>, nums: seq<int>,
                                     k: nat): seq<Send>
      requires |conn| == |costs| == |row| == |nums| && k <= |conn|
    {
      if k == 0 then []
      else FloodSends(me, conn, costs, row, nums, k - 1) + FloodSend(me, conn, costs, row, nums[k - 1], k - 1)
    }

    ghost function Row(m: array2<int>, u: int): (r: seq<int>)
      reads m
      requires 0 <= u < m.Length0
      ensures |r| == m.Length1 && forall v :: 0 <= v < m.Length1 ==> r[v] == m[u, v]
    {
      seq(m.Length1, v requires 0 <= v < m.Length1 reads m => m[u, v])
    }

    /** Announces one link under its next number. */
    method Announce(n: int, cost: int)
      requires Valid() && 0 <= n < V
      modifies this`sent, seqNumMatrix
      ensures sent == old(sent) + SendAll(Recipients(connections[..], me, me, connections.Length),
                                          Lsp(me, n, cost, old(seqNumMatrix[me, n]) + 1, TTL))
      ensures forall u, i :: 0 <= u < V && 0 <= i < V ==>
                seqNumMatrix[u, i] == old(seqNumMatrix[u, i]) + if u == me && i == n then 1 else 0
    {
      seqNumMatrix[me, n] := seqNumMatrix[me, n] + 1;
      Broadcast(Lsp(me, n, cost, seqNumMatrix[me, n], TTL), me);
    }

    /** What a flood looks at. */
    ghost predicate Sees(conn: seq<bool>, cost: seq<int>, row: seq<int>)
      reads this, connections, costs, adjMatrix
    {
      && connections[..] == conn && costs[..] == cost && 0 <= me < adjMatrix.Length0
      && |row| == adjMatrix.Length1 && forall v :: 0 <= v < |row| ==> row[v] == adjMatrix[me, v]
    }

    /** Announces every link under a number one higher than the last. */
    method FloodLsp()
      requires Valid()
      modifies this`sent, seqNumMatrix
      ensures sent == old(sent) + FloodSends(me, connections[..], costs[..], Row(adjMatrix, me),
                old(Row(seqNumMatrix, me)), connections.Length)
      ensures forall u, i :: 0 <= u < V && 0 <= i < V ==>
                seqNumMatrix[u, i] == old(seqNumMatrix[u, i])
                                      + if u == me && Announces(me, connections[..], Row(adjMatrix, me), i)
                                        then 1 else 0
    {
      FloodAll(connections[..], costs[..], Row(adjMatrix, me), Row(seqNumMatrix, me));
    }

    /** The own numbers after the first k links, from nums before. */
    ghost predicate Counted(conn: seq<bool>, row: seq<int>, nums: seq<int>, k: nat)
      reads this, seqNumMatrix
      requires |conn| == |row| == |nums| == seqNumMatrix.Length1 && 0 <= me < seqNumMatrix.Length0
    {
      forall j :: 0 <= j < |nums| ==>
        seqNumMatrix[me, j] == nums[j] + if j < k && Announces(me, conn, row, j) then 1 else 0
    }

    /** One link of the flood. */
    method FloodLink(i: nat, ghost conn: seq<bool>, ghost cost: seq<int>, ghost row: seq<int>, ghost nums: seq<int>)
      requires Valid() && i < V && Sees(conn, cost, row) && |nums| == V && Counted(conn, row, nums, i)
      modifies this`sent, seqNumMatrix
      ensures sent == old(sent) + FloodSend(me, conn, cost, row, nums[i], i)
      ensures Counted(conn, row, nums, i + 1)
      ensures forall u, j :: 0 <= u < V && 0 <= j < V && u != me ==> seqNumMatrix[u, j] == old(seqNumMatrix[u, j])
    {
      assert seqNumMatrix[me, i] == nums[i];
      if i != me && connections[i] {
        Announce(i, costs[i]);
      } else if i != me && adjMatrix[me, i] == -1 {
        Announce(i, -1);
      }
    }

    /** The flood so far and one more link. */
    static lemma FloodSendsOn(me: int, conn: seq<bool>, cost: seq<int>, row: seq<int>, nums: seq<int>, i: nat,
                              before: seq<Send>, now: seq<Send>)
      requires |conn| == |cost| == |row| == |nums| && i < |conn|
      requires now == before + FloodSends(me, conn, cost, row, nums, i)
      ensures now + FloodSend(me, conn, cost, row, nums[i], i) == before + FloodSends(me, conn, cost, row, nums, i + 1)
    {
      Regroup(before, FloodSends(me, conn, cost, row, nums, i), FloodSend(me, conn, cost, row, nums[i], i));
    }

    method FloodAll(ghost conn: seq<bool>, ghost cost: seq<int>, ghost row: seq<int>, ghost nums: seq<int>)
      requires Valid() && Sees(conn, cost, row) && |nums| == V && Counted(conn, row, nums, 0)
      modifies this`sent, seqNumMatrix
      ensures sent == old(sent) + FloodSends(me, conn, cost, row, nums, |conn|)
      ensures forall u, i :: 0 <= u < V && 0 <= i < V ==>
                seqNumMatrix[u, i] == old(seqNumMatrix[u, i])
                                      + if u == me && Announces(me, conn, row, i) then 1 else 0
    {
      for i := 0 to connections.Length
        invariant Sees(conn, cost, row) && Counted(conn, row, nums, i)
        invariant sent == old(sent) + FloodSends(me, conn, cost, row, nums, i)
        invariant forall u, j :: 0 <= u < V && 0 <= j < V && u != me ==> seqNumMatrix[u, j] == old(seqNumMatrix[u, j])
      {
        FloodSendsOn(me, conn, cost, row, nums, i, old(sent), sent);
        FloodLink(i, conn, cost, row, nums);
      }
    }

    /** The matrix entries of the link between u and v, in both directions. */
    static predicate OfLink(a: int, b: int, u: int, v: int) {
      (a == u && b == v) || (a == v && b == u)
    }

    /** Enters a cost for both directions of a link. */
    method SetLink(u: int, v: int, cost: int)
      requires Valid() && 0 <= u < V && 0 <= v < V
      modifies adjMatrix
      ensures Valid()
      ensures forall a, b :: 0 <= a < V && 0 <= b < V ==>
                adjMatrix[a, b] == if OfLink(a, b, u, v) then cost else old(adjMatrix[a, b])
    {
      adjMatrix[u, v] := cost;
      adjMatrix[v, u] := cost;
    }

    /** A link comes up: it is entered both ways, and the table is rebuilt. */
    method AddNeighbour(h: int)
      requires Valid() && 0 <= h < V && h != me
      modifies this`confirmedMap, connections, adjMatrix
      ensures Valid() && FitsGraph(Graph(), Adj(), me, confirmedMap)
      ensures old(OwnLinksAgree()) ==> OwnLinksAgree()
      ensures connections[..] == old(connections[..])[h := true]
      ensures forall a, b :: 0 <= a < V && 0 <= b < V ==>
                adjMatrix[a, b] == if OfLink(a, b, me, h) then costs[h] else old(adjMatrix[a, b])
    {
      connections[h] := true;
      ghost var conn := connections[..];
      SetLink(me, h, costs[h]);
      assert connections[..] == conn;
      if old(OwnLinksAgree()) {
        OwnLinkKept(h);
      }
      UpdateFwdTable();
      assert connections[..] == conn;
    }

    /** A datagram from a node that was no neighbour makes it one. */
    method HeardFrom(h: int)
      requires Valid() && TableCurrent() && 0 <= h < V && h != me
      modifies this, connections, adjMatrix, seqNumMatrix
      ensures Valid() && TableCurrent()
      ensures old(OwnLinksAgree()) ==> OwnLinksAgree()
      ensures connections[..] == old(connections[..])[h := true]
      ensures forall a, b :: 0 <= a < V && 0 <= b < V ==>
                adjMatrix[a, b] == if !old(connections[h]) && OfLink(a, b, me, h) then costs[h]
                    else old(adjMatrix[a, b])
      ensures forall u, i :: 0 <= u < V && 0 <= i < V ==>
                seqNumMatrix[u, i] == old(seqNumMatrix[u, i])
                                      + if !old(connections[h]) && u == me
                                         && Announces(me, connections[..], Row(adjMatrix, me), i) then 1 else 0
      ensures !old(connections[h]) ==>
                sent == old(sent) + FloodSends(me, connections[..], costs[..], Row(adjMatrix, me),
                    old(Row(seqNumMatrix, me)), connections.Length)
      ensures old(connections[h]) ==> sent == old(sent) && confirmedMap == old(confirmedMap)
    {
      if !connections[h] {
        AddNeighbour(h);
        ghost var g, a, c, conn := Graph(), Adj(), confirmedMap, connections[..];
        FloodLsp();
        assert connections[..] == conn;
        StillCurrent(g, a, c);
      }
    }

    /** The link to x is entered as gone. */
    method TakeDown(x: int)
      requires Valid() && 0 <= x < V && connections[x]
      modifies connections, adjMatrix
      ensures Valid() && (old(OwnLinksAgree()) ==> OwnLinksAgree())
      ensures connections[..] == old(connections[..])[x := false]
      ensures forall a, b :: 0 <= a < V && 0 <= b < V ==>
                adjMatrix[a, b] == if OfLink(a, b, me, x) then -1 else old(adjMatrix[a, b])
    {
      connections[x] := false;
      ghost var conn := connections[..];
      SetLink(me, x, -1);
      assert connections[..] == conn;
      if old(OwnLinksAgree()) {
        OwnLinkKept(x);
      }
    }

    /** A neighbour that has been silent for too long is one no more. */
    method LinkDown(x: int)
      requires Valid() && 0 <= x < V && connections[x]
      modifies this, connections, adjMatrix, seqNumMatrix
      ensures Valid() && TableCurrent()
      ensures old(OwnLinksAgree()) ==> OwnLinksAgree()
      ensures connections[..] == old(connections[..])[x := false]
      ensures forall a, b :: 0 <= a < V && 0 <= b < V ==>
                adjMatrix[a, b] == if OfLink(a, b, me, x) then -1 else old(adjMatrix[a, b])
      ensures forall u, i :: 0 <= u < V && 0 <= i < V ==>
                seqNumMatrix[u, i] == old(seqNumMatrix[u, i]) + if u == me && i == x then 1 else 0
      ensures sent == old(sent) + SendAll(Recipients(connections[..], me, me, connections.Length),
                                          Lsp(me, x, -1, old(seqNumMatrix[me, x]) + 1, TTL))
    {
      TakeDown(x);
      ghost var conn := connections[..];
      UpdateFwdTable();
      assert connections[..] == conn;
      ghost var g, a, c := Graph(), Adj(), confirmedMap;
      Announce(x, -1);
      StillCurrent(g, a, c);
    }

    /** A link that is up has changed its cost: the matrix, the announcement and the table follow. */
    method EnterCost(dest: int, cost: int)
      requires Valid() && 0 <= dest < V
      modifies this, adjMatrix, seqNumMatrix
      ensures Valid() && FitsGraph(Graph(), Adj(), me, confirmedMap)
      ensures forall a, b :: 0 <= a < V && 0 <= b < V ==>
                adjMatrix[a, b] == if OfLink(a, b, me, dest) then cost else old(adjMatrix[a, b])
      ensures forall u, i :: 0 <= u < V && 0 <= i < V ==>
                seqNumMatrix[u, i] == old(seqNumMatrix[u, i]) + if u == me && i == dest then 1 else 0
      ensures sent == old(sent) + SendAll(Recipients(connections[..], me, me, connections.Length),
                                          Lsp(me, dest, cost, old(seqNumMatrix[me, dest]) + 1, TTL))
    {
      SetLink(me, dest, cost);
      Announce(dest, cost);
      UpdateFwdTable();
    }

    /** The manager sets the cost of a link, which may be down at present. */
    method CostChange(dest: int, cost: int)
      requires Valid() && TableCurrent() && 0 <= dest < V && cost > 0
      modifies this, costs, adjMatrix, seqNumMatrix
      ensures Valid() && TableCurrent()
      ensures old(OwnLinksAgree()) ==> OwnLinksAgree()
      ensures costs[..] == old(costs[..])[dest := cost]
      ensures forall a, b :: 0 <= a < V && 0 <= b < V ==>
                adjMatrix[a, b] == if connections[dest] && OfLink(a, b, me, dest) then cost else old(adjMatrix[a, b])
      ensures forall u, i :: 0 <= u < V && 0 <= i < V ==>
                seqNumMatrix[u, i] == old(seqNumMatrix[u, i]) + if connections[dest] && u == me && i == dest
                                                                 then 1 else 0
      ensures connections[dest] ==>
                sent == old(sent) + SendAll(Recipients(connections[..], me, me, connections.Length),
                                               Lsp(me, dest, cost, old(seqNumMatrix[me, dest]) + 1, TTL))
      ensures !connections[dest] ==> sent == old(sent) && confirmedMap == old(confirmedMap)
    {
      ghost var g, conn := Graph(), connections[..];
      costs[dest] := cost;
      if connections[dest] {
        assert connections[..] == conn;
        EnterCost(dest, cost);
      } else {
        SameMatrix(Graph(), g);
      }
    }

    /** A packet about the router's own link to i names its cost. */
    static predicate CostNamed(me: int, lsp: Lsp, i: int) {
      if lsp.neighbour == me then i == lsp.source else lsp.source == me && i == lsp.neighbour
    }

    /** The packet is about a link of this router. */
    predicate AboutOwnLink(lsp: Lsp) {
      lsp.source == me || lsp.neighbour == me
    }

    /** Whether the router itself takes that link to be up. */
    predicate OwnLinkUp(lsp: Lsp)
      reads connections
      requires connections.Length == V && 0 <= lsp.source < V && 0 <= lsp.neighbour < V
    {
      connections[if lsp.source == me then lsp.neighbour else lsp.source]
    }

    /** What a packet makes of the agreement about own links: it stays if and only if the cost says that
        the link is up and it is, or that it is down and it is. */
    twostate lemma OwnLinkHeard(lsp: Lsp)
      requires old(Valid()) && Valid() && 0 <= lsp.source < V && 0 <= lsp.neighbour < V && old(OwnLinksAgree())
      requires connections[..] == old(connections[..])
      requires forall a, b :: 0 <= a < V && 0 <= b < V ==>
                 adjMatrix[a, b] == if OfLink(a, b, lsp.source, lsp.neighbour) then lsp.cost else old(adjMatrix[a, b])
      requires forall i {:trigger costs[i]} :: 0 <= i < V ==>
                 costs[i] == if lsp.cost > 0 && CostNamed(me, lsp, i) then lsp.cost else old(costs[i])
      ensures OwnLinksAgree() <==> AboutOwnLink(lsp) ==> (0 < lsp.cost <==> OwnLinkUp(lsp))
    {
    }

    /** Takes over what a packet says about the cost of a link. */
    method Record(lsp: Lsp)
      requires Valid() && 0 <= lsp.source < V && 0 <= lsp.neighbour < V
      modifies costs, adjMatrix
      ensures Valid()
      ensures old(OwnLinksAgree()) ==> (OwnLinksAgree() <==> AboutOwnLink(lsp) ==> (0 < lsp.cost <==> OwnLinkUp(lsp)))
      ensures forall a, b :: 0 <= a < V && 0 <= b < V ==>
                adjMatrix[a, b] == if OfLink(a, b, lsp.source, lsp.neighbour) then lsp.cost else old(adjMatrix[a, b])
      ensures forall i {:trigger costs[i]} :: 0 <= i < V ==>
                costs[i] == if lsp.cost > 0 && CostNamed(me, lsp, i) then lsp.cost else old(costs[i])
    {
      SetLink(lsp.source, lsp.neighbour, lsp.cost);
      if lsp.neighbour == me && costs[lsp.source] != lsp.cost && lsp.cost > 0 {
        costs[lsp.source] := lsp.cost;
      } else if lsp.source == me && costs[lsp.neighbour] != lsp.cost && lsp.cost > 0 {
        costs[lsp.neighbour] := lsp.cost;
      }
      if old(OwnLinksAgree()) {
        OwnLinkHeard(lsp);
      }
    }

    /** A link-state packet: ignored unless it is news, otherwise recorded and passed on. */
    method ReceiveLsp(lsp: Lsp, heardFrom: int) returns (accepted: bool)
      requires Valid() && TableCurrent() && 0 <= lsp.source < V && 0 <= lsp.neighbour < V
      modifies this, costs, adjMatrix, seqNumMatrix
      ensures Valid() && TableCurrent()
      ensures accepted == Accepts(old(seqNumMatrix[lsp.source, lsp.neighbour]), lsp)
      ensures forall u, v :: 0 <= u < V && 0 <= v < V ==>
                seqNumMatrix[u, v] == if accepted && u == lsp.source && v == lsp.neighbour then lsp.seqNum
                                      else old(seqNumMatrix[u, v])
      ensures sent == old(sent) + if accepted
                then SendAll(Recipients(connections[..], me, heardFrom, connections.Length),
                   lsp.(ttl := lsp.ttl - 1)) else []
      ensures forall a, b :: 0 <= a < V && 0 <= b < V ==>
                adjMatrix[a, b] == if accepted && OfLink(a, b, lsp.source, lsp.neighbour) then lsp.cost
                    else old(adjMatrix[a, b])
      ensures forall i {:trigger costs[i]} :: 0 <= i < V ==>
                costs[i] == if accepted && lsp.cost > 0 && CostNamed(me, lsp, i) then lsp.cost else old(costs[i])
      ensures !accepted ==> confirmedMap == old(confirmedMap)
      ensures old(OwnLinksAgree()) ==>
                (OwnLinksAgree() <==> accepted && AboutOwnLink(lsp) ==> (0 < lsp.cost <==> OwnLinkUp(lsp)))
    {
      accepted := lsp.seqNum > seqNumMatrix[lsp.source, lsp.neighbour] && lsp.ttl - 1 > 0;
      if accepted {
        seqNumMatrix[lsp.source, lsp.neighbour] := lsp.seqNum;
        Record(lsp);
        Broadcast(lsp.(ttl := lsp.ttl - 1), heardFrom);
        UpdateFwdTable();
      }
    }

    /** Where a packet for `dest` goes. */
    method Route(dest: int) returns (d: Decision)
      requires Valid()
      ensures d == Decide(confirmedMap, me, dest)
    {
      if dest == me {
        d := Deliver;
      } else if dest !in confirmedMap {
        d := Unreachable;
      } else {
        d := Forward(confirmedMap[dest].nexthop);
      }
    }
  }

  function Decide(c: Table, me: int, dest: int): Decision {
    if dest == me then Deliver
    else if dest !in c then Unreachable
    else Forward(c[dest].nexthop)
  }
}
