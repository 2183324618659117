/** A distance-vector router: its tables, and one round of its listening loop at a time. */
module VectorRouter {
  import opened DistanceVector

  const NODES := 256
  const TIMEOUT := 3      // HEARTBEAT_TIMEOUT, seconds
  const UPDATE_FREQ := 1  // seconds

  /** A "dist" datagram handed to the network. */
  datatype DistMsg = DistMsg(to: int, node: int, dist: int)

  /** What a datagram asks for. */
  datatype Request =
    | Hello
    | CostChange(node: int, cost: int)
    | Dist(node: int, dist: int)

  /** The datagrams about one node to the first k neighbours: the next hop is told "infinite". */
  function Tell(conn: seq<bool>, hop: int, node: int, dist: int, k: nat): seq<DistMsg>
    requires k <= |conn|
  {
    if k == 0 then []
    else Tell(conn, hop, node, dist, k - 1)
         + if conn[k - 1] then [DistMsg(k - 1, node, if k - 1 == hop then -1 else dist)] else []
  }

  /** Every neighbour is told the advert of the entry. */
  lemma {:induction false} TellIsAdvert(conn: seq<bool>, e: Route, node: int, k: nat)
    requires k <= |conn|
    ensures forall m :: m in Tell(conn, e.nextHop, node, e.dist, k) <==>
              m.node == node && 0 <= m.to < k && conn[m.to] && m.dist == Advert(e, m.to)
  {
    if k > 0 {
      TellIsAdvert(conn, e, node, k - 1);
    }
  }

  class Router {
    const me: int
    const connections: array<bool>
    const costs: array<int>
    const dvTable: array<Route>
    const lastHeard: array<int>
    var updateTime: int
    var sent: seq<DistMsg>

    /** The tables have their sizes, and every next hop is a node or none. */
    ghost predicate Shaped()
      reads connections, costs, dvTable, lastHeard
    {
      && 0 <= me < NODES
      && connections.Length == costs.Length == dvTable.Length == lastHeard.Length == NODES && costs != lastHeard
      && (forall d {:trigger dvTable[d]} :: 0 <= d < NODES ==> -1 <= dvTable[d].nextHop < NODES)
    }

    /** The table makes sense apart from whether its next hops are still neighbours. */
    ghost predicate Sane()
      reads connections, costs, dvTable, lastHeard
    {
      && Shaped() && !connections[me] && dvTable[me] == Route(0, me)
      && (forall i :: 0 <= i < NODES && i != me ==> 0 < costs[i])
      && (forall d {:trigger dvTable[d]} :: 0 <= d < NODES ==> EntryOk(dvTable[d]))
    }

    /** Every route leads to a present neighbour. */
    ghost predicate Valid()
      reads connections, costs, dvTable, lastHeard
    {
      Sane() && HopsUp(me, connections[..], dvTable[..])
    }

    /** A router that knows its own costs and itself. */
    constructor (id: int, initial: seq<int>, now: int)
      requires 0 <= id < NODES && |initial| == NODES && forall i :: 0 <= i < NODES ==> 0 < initial[i]
      ensures Valid() && me == id && sent == [] && costs[..] == initial[id := 0]
      ensures forall d {:trigger dvTable[d]} :: 0 <= d < NODES ==>
                dvTable[d] == if d == id then Route(0, id) else UNREACHABLE
      ensures forall i {:trigger connections[i]} :: 0 <= i < NODES ==> !connections[i]
    {
      me := id;
      connections := new bool[NODES](_ => false);
      costs := new int[NODES](i requires 0 <= i < NODES => if i == id then 0 else initial[i]);
      dvTable := new Route[NODES](i => if i == id then Route(0, id) else UNREACHABLE);
      lastHeard := new int[NODES](_ => now);
      updateTime, sent := 0, [];
    }

    /** Tells every neighbour about the entry of a node. */
    method SendDistVecUpdate(node: int, dist: int)
      requires Shaped() && 0 <= node < NODES
      modifies this`sent
      ensures sent == old(sent) + Tell(connections[..], dvTable[node].nextHop, node, dist, connections.Length)
    {
      ghost var conn := connections[..];
      ghost var out: seq<DistMsg> := [];
      for i := 0 to NODES
        invariant sent == old(sent) + out && out == Tell(conn, dvTable[node].nextHop, node, dist, i)
      {
        if connections[i] {
          ghost var m := DistMsg(i, node, if i == dvTable[node].nextHop then -1 else dist);
          if i == dvTable[node].nextHop {
            sent := sent + [DistMsg(i, node, -1)];
          } else {
            sent := sent + [DistMsg(i, node, dist)];
          }
          out := out + [m];
        }
      }
    }

    /** Updates an entry if there is a reason to, and then tells the neighbours. */
    method UpdateDistVec(node: int, newDist: int, newHop: int)
      requires Shaped() && -1 <= newHop < NODES
      modifies this`sent, dvTable
      ensures Shaped()
      ensures old(Sane()) && -1 <= newDist && (newHop == -1 ==> newDist == -1) ==> Sane()
      ensures 0 <= node < NODES ==>
                dvTable[..] == old(dvTable[..])[node := Updated(connections[..], me, old(dvTable[node]), node,
                    newDist, newHop)]
      ensures 0 <= node < NODES ==>
                sent == old(sent) + UpdateSends(connections[..], me, old(dvTable[node]), node, newDist, newHop)
      ensures !(0 <= node < NODES) ==> dvTable[..] == old(dvTable[..]) && sent == old(sent)
    {
      if 0 <= node < NODES {
        var dist, nextHop := newDist, newHop;
        if dist > LIMIT {
          dist := -1;
        }
        var e := dvTable[node];
        var lowerDist := dist != -1 && dist < e.dist;
        var lowerID := nextHop < e.nextHop && e.dist == dist;
        var connectionLost := e.nextHop != -1 && !connections[e.nextHop] && nextHop == -1;
        var distChanged := e.dist != dist && (e.nextHop == nextHop || e.dist == -1);
        if dist == -1 {
          nextHop := -1;
        }
        if node != me && (lowerDist || lowerID || connectionLost || distChanged) {
          dvTable[node] := Route(dist, nextHop);
          SendDistVecUpdate(node, dist);
        }
      }
    }

    /** Periodically tells the neighbours about every finite entry. */
    method CheckUpdateTime(now: int)
      requires Sane()
      modifies this`sent, this`updateTime
      ensures updateTime == NextUpdate(old(updateTime), now)
      ensures sent == old(sent) + if old(updateTime) <= now
                then TellAll(connections[..], dvTable[..], dvTable.Length) else []
    {
      if now >= updateTime {
        updateTime := now + UPDATE_FREQ;
        ghost var conn, table := connections[..], dvTable[..];
        ghost var out: seq<DistMsg> := [];
        for i := 0 to NODES
          invariant updateTime == now + UPDATE_FREQ
          invariant sent == old(sent) + out && out == TellAll(conn, table, i)
        {
          assert connections[..] == conn;
          if dvTable[i].dist != -1 {
            SendDistVecUpdate(i, dvTable[i].dist);
            out := out + Tell(conn, table[i].nextHop, i, table[i].dist, |conn|);
          }
        }
      }
    }

    /** Drops the routes that lead through a neighbour that has just gone. */
    method DropRoutes(i: int)
      requires Sane() && 0 <= i < NODES && i != me && !connections[i]
      modifies this`sent, dvTable
      ensures Sane() && dvTable[me] == old(dvTable[me])
      ensures forall d {:trigger dvTable[d]} :: 0 <= d < NODES ==>
                dvTable[d] == if old(dvTable[d]).nextHop == i then UNREACHABLE else old(dvTable[d])
      ensures sent == old(sent) + Withdrawals(connections[..], old(dvTable[..]), i, dvTable.Length)
    {
      ghost var conn, table := connections[..], dvTable[..];
      ghost var out: seq<DistMsg> := [];
      for j := 0 to NODES
        invariant Sane() && sent == old(sent) + out && out == Withdrawals(conn, table, i, j)
        invariant forall d {:trigger dvTable[d]} :: 0 <= d < NODES ==>
                    dvTable[d] == if d < j && old(dvTable[d]).nextHop == i then UNREACHABLE else old(dvTable[d])
      {
        if dvTable[j].nextHop == i {
          ghost var before := dvTable[..];
          assert connections[..] == conn;
          UpdateDistVec(j, -1, -1);
          out := out + Tell(conn, -1, j, -1, |conn|);
          assert forall d {:trigger dvTable[d]} :: 0 <= d < NODES ==> dvTable[d] == if d == j then UNREACHABLE
              else before[d];
        }
      }
    }

    /** A neighbour is gone, and with it the routes that lead through it. */
    method LoseNeighbour(i: int)
      requires Sane() && 0 <= i < NODES && connections[i]
      modifies this`sent, connections, dvTable
      ensures Sane() && connections[..] == old(connections[..])[i := false]
      ensures dvTable[..] == AllKept(old(connections[..]), connections[..], old(dvTable[..]))
      ensures sent == old(sent) + Withdrawals(connections[..], old(dvTable[..]), i, dvTable.Length)
    {
      connections[i] := false;
      DropRoutes(i);
    }

    /** The expiry sweep over a table and its neighbours has dealt with the first k nodes. */
    ghost predicate Swept(conn: seq<bool>, last: seq<int>, table: seq<Route>, now: int, k: nat)
      reads connections, costs, dvTable, lastHeard
    {
      && Sane() && |conn| == |last| == |table| == NODES && k <= NODES
      && lastHeard[..] == last
      && connections[..] == Survivors(conn, last, now, k)
      && dvTable[..] == AllKept(conn, connections[..], table)
    }

    lemma SweepStart(conn: seq<bool>, last: seq<int>, table: seq<Route>, now: int)
      requires Sane() && conn == connections[..] && last == lastHeard[..] && table == dvTable[..]
      ensures Swept(conn, last, table, now, 0)
    {
      assert Survivors(conn, last, now, 0) == conn;
      assert AllKept(conn, conn, table) == table;
    }

    /** One step of the sweep. */
    method CheckHeartbeat(ghost conn: seq<bool>, ghost last: seq<int>, ghost table: seq<Route>, now: int, i: nat)
      requires i < NODES && Swept(conn, last, table, now, i)
      modifies this`sent, connections, dvTable
      ensures Swept(conn, last, table, now, i + 1)
      ensures sent == old(sent) + ExpirySend(conn, last, table, now, i)
    {
      ghost var before, left := connections[..], Survivors(conn, last, now, i + 1);
      assert conn[i] == before[i] && last[i] == lastHeard[i];
      if connections[i] && now - lastHeard[i] >= TIMEOUT {
        assert left == before[i := false];
        StillKept(conn, before, left, table, i);
        LoseNeighbour(i);
      } else {
        assert left == before;
      }
    }

    /** Expires silent neighbours, and with them the routes that lead through them. */
    method CheckHeartbeats(now: int)
      requires Sane()
      modifies this`sent, connections, dvTable
      ensures Sane() && (old(Valid()) ==> Valid())
      ensures connections[..] == Survivors(old(connections[..]), lastHeard[..], now, connections.Length)
      ensures dvTable[..] == AllKept(old(connections[..]), connections[..], old(dvTable[..]))
      ensures sent == old(sent)
                      + ExpirySends(old(connections[..]), lastHeard[..], old(dvTable[..]), now, connections.Length)
    {
      ghost var conn, last, table := connections[..], lastHeard[..], dvTable[..];
      ghost var out: seq<DistMsg> := [];
      SweepStart(conn, last, table, now);
      for i := 0 to connections.Length
        invariant Swept(conn, last, table, now, i)
        invariant sent == old(sent) + out && out == ExpirySends(conn, last, table, now, i)
      {
        CheckHeartbeat(conn, last, table, now, i);
        out := out + ExpirySend(conn, last, table, now, i);
      }
      KeptHopsUp(me, conn, connections[..], table);
    }

    /** A datagram from node h makes it a neighbour and offers its link as a route. A datagram that is
        not from a node has h == -1. */
    method HearFrom(h: int, now: int)
      requires Sane() && Sender(h) && h != me
      modifies this`sent, connections, dvTable, lastHeard
      ensures Sane()
      ensures connections[..] == Joined(old(connections[..]), h)
      ensures dvTable[..] == Offered(connections[..], costs[..], me, old(dvTable[..]), h)
      ensures lastHeard[..] == Stamped(old(lastHeard[..]), h, now)
      ensures sent == old(sent) + OfferSends(connections[..], costs[..], me, old(dvTable[..]), h)
    {
      if h != -1 {
        connections[h] := true;
        UpdateDistVec(h, costs[h], h);
        lastHeard[h] := now;
      }
    }

    /** The manager sets the cost of a link, whatever it is; while the link is up the route along it follows. The
        table keeps making sense when the cost is positive. */
    method ReceiveCost(node: int, cost: int)
      requires Sane() && 0 <= node < NODES
      modifies this`sent, costs, dvTable
      ensures Shaped() && (0 < cost ==> Sane()) && costs[..] == old(costs[..])[node := cost]
      ensures dvTable[..] == if connections[node]
                then old(dvTable[..])[node := Updated(connections[..], me, old(dvTable[node]), node, cost, node)]
                else old(dvTable[..])
      ensures sent == old(sent) + if connections[node]
                then UpdateSends(connections[..], me, old(dvTable[node]), node, cost, node) else []
    {
      costs[node] := cost;
      if connections[node] {
        UpdateDistVec(node, cost, node);
      }
    }

    /** A node's advert, ignored while there is no route to that node. Whether it still is a neighbour
        is not looked at. */
    method ReceiveDist(h: int, node: int, dist: int)
      requires Sane() && 0 <= h < NODES && -1 <= dist && 0 < costs[h]
      modifies this`sent, dvTable
      ensures Sane()
      ensures dvTable[..] == if old(dvTable[h]).dist >= 0 && 0 <= node < NODES
                then old(dvTable[..])[node := Updated(connections[..], me, old(dvTable[node]), node,
                   Through(dist, costs[h]), h)]
                else old(dvTable[..])
      ensures sent == old(sent) + if old(dvTable[h]).dist >= 0 && 0 <= node < NODES
                then UpdateSends(connections[..], me, old(dvTable[node]), node, Through(dist, costs[h]), h) else []
    {
      if dvTable[h].dist >= 0 {
        var cost := dist;
        if cost != -1 {
          cost := cost + costs[h];
        }
        UpdateDistVec(node, cost, h);
      }
    }

    /** What every datagram brings about, whatever it asks for. The clock is read three times: when the
        sender is stamped, when a periodic update may be due, and for the expiry sweep. */
    method Hear(h: int, stampTime: int, updateCheck: int, sweepTime: int)
      requires Sane() && Sender(h) && h != me
      modifies this`sent, this`updateTime, connections, dvTable, lastHeard
      ensures Sane()
      ensures lastHeard[..] == Stamped(old(lastHeard[..]), h, stampTime)
      ensures connections[..] == Survivors(Joined(old(connections[..]), h), lastHeard[..], sweepTime,
                connections.Length)
      ensures dvTable[..] == HeardTable(old(connections[..]), connections[..], costs[..], me, old(dvTable[..]), h)
      ensures updateTime == NextUpdate(old(updateTime), updateCheck)
      ensures sent == old(sent)
                + HeardSends(old(connections[..]), lastHeard[..], costs[..], me, old(dvTable[..]), h, sweepTime,
                             old(updateTime) <= updateCheck)
    {
      ghost var conn, table, due := connections[..], dvTable[..], updateTime <= updateCheck;
      ghost var s0 := sent;
      HearFrom(h, stampTime);
      ghost var s1 := sent;
      CheckUpdateTime(updateCheck);
      ghost var s2 := sent;
      CheckHeartbeats(sweepTime);
      HeardSendsAre(conn, lastHeard[..], costs[..], me, table, h, sweepTime, due, s0, s1, s2, sent);
    }

    /** Looks at what the datagram asks for. */
    method Answer(h: int, request: Request)
      requires Sane() && Sender(h) && h != me && RequestOk(request)
      modifies this`sent, costs, dvTable
      ensures Shaped() && (Positive(request) ==> Sane())
      ensures dvTable[..] == AnsweredTable(connections[..], old(costs[..]), me, old(dvTable[..]), h, request)
      ensures sent == old(sent) + AnswerSends(connections[..], old(costs[..]), me, old(dvTable[..]), h, request)
      ensures costs[..] == if request.CostChange? then old(costs[..])[request.node := request.cost] else old(costs[..])
    {
      match request {
        case Hello =>
        case CostChange(node, cost) => ReceiveCost(node, cost);
        case Dist(node, dist) =>
          if h != -1 {
            ReceiveDist(h, node, dist);
          }
      }
    }

    /** What the router holds, apart from its timer and what it has sent. */
    ghost function View(): State
      reads connections, costs, dvTable, lastHeard
    {
      State(me, connections[..], costs[..], dvTable[..], lastHeard[..])
    }

    lemma ViewOk()
      requires Sane()
      ensures StateOk(View()) && (Valid() <==> HopsUp(me, View().conn, View().table))
    {
    }

    /** One round of the loop. When less than the timeout passes between the stamp and the sweep, every
        route leads to a present neighbour afterwards if it did before. */
    method Round(h: int, stampTime: int, updateCheck: int, sweepTime: int, request: Request)
      requires Sane() && Sender(h) && h != me && RequestOk(request)
      modifies this`sent, this`updateTime, connections, costs, dvTable, lastHeard
      ensures Shaped() && (Positive(request) ==> Sane())
      ensures View() == AfterRound(old(View()), h, stampTime, sweepTime, request)
      ensures old(Valid()) && sweepTime - stampTime < TIMEOUT && Positive(request) ==> Valid()
      ensures updateTime == NextUpdate(old(updateTime), updateCheck)
      ensures sent == old(sent) + RoundSends(old(View()), h, stampTime, sweepTime, old(updateTime) <= updateCheck,
                request)
    {
      ghost var s, due, s0 := View(), updateTime <= updateCheck, sent;
      ViewOk();
      Hear(h, stampTime, updateCheck, sweepTime);
      ghost var s1 := sent;
      Answer(h, request);
      RoundSendsAre(s, h, stampTime, sweepTime, due, request, s0, s1, sent);
      if HopsUp(me, s.conn, s.table) && sweepTime - stampTime < TIMEOUT {
        RoundKeepsHops(s, h, stampTime, sweepTime, request);
      }
    }
  }

  // ---------- The periodic update ----------

  /** When the next periodic update is due, after the clock has shown `now` at the check. */
  function NextUpdate(due: int, now: int): int {
    if due <= now then now + UPDATE_FREQ else due
  }

  /** And after a sequence of checks. */
  function DueAfter(due: int, readings: seq<int>): int {
    if readings == [] then due
    else NextUpdate(DueAfter(due, readings[..|readings| - 1]), readings[|readings| - 1])
  }

  /** The check number i brings an update. */
  predicate UpdatesAt(due: int, readings: seq<int>, i: nat) {
    i < |readings| && DueAfter(due, readings[..i]) <= readings[i]
  }

  /** After an update, and as long as none follows, the next is due one second after it. */
  lemma {:induction false} DueOneLater(due: int, readings: seq<int>, i: nat, j: nat)
    requires i < j <= |readings| && UpdatesAt(due, readings, i)
    requires forall k :: i < k < j ==> !UpdatesAt(due, readings, k)
    ensures DueAfter(due, readings[..j]) == readings[i] + 1
    decreases j
  {
    assert readings[..j][..j - 1] == readings[..j - 1] && readings[..j] != [];
    if i < j - 1 {
      DueOneLater(due, readings, i, j - 1);
      assert !UpdatesAt(due, readings, j - 1);
    }
  }

  /** Of the checks after an update, the first one at least one second later brings the next update. */
  lemma UpdatesOncePerSecond(due: int, readings: seq<int>, i: nat, j: nat)
    requires i < j < |readings| && UpdatesAt(due, readings, i)
    requires forall k :: i < k < j ==> !UpdatesAt(due, readings, k)
    ensures UpdatesAt(due, readings, j) <==> readings[j] - readings[i] >= 1
  {
    DueOneLater(due, readings, i, j);
  }

  predicate HopsUp(me: int, conn: seq<bool>, table: seq<Route>) {
    forall d :: 0 <= d < |table| && d != me ==> HopUp(table[d], conn)
  }

  predicate HopUp(e: Route, conn: seq<bool>) {
    e.nextHop != -1 ==> Up(conn, e.nextHop)
  }

  /** A node, or -1 for anything else that may send a datagram. */
  predicate Sender(h: int) {
    -1 <= h < NODES
  }

  predicate RequestOk(request: Request) {
    match request
    case Hello => true
    case CostChange(node, _) => 0 <= node < NODES
    case Dist(_, dist) => -1 <= dist
  }

  /** It sets no cost that could not be one. */
  predicate Positive(request: Request) {
    request.CostChange? ==> 0 < request.cost
  }

  /** What an update tells the neighbours. */
  function UpdateSends(conn: seq<bool>, me: int, e: Route, node: int, newDist: int, newHop: int): seq<DistMsg> {
    if Fires(conn, me, e, node, newDist, newHop)
    then var e' := Updated(conn, me, e, node, newDist, newHop); Tell(conn, e'.nextHop, node, e'.dist, |conn|)
    else []
  }

  /** What is told when the routes through i among the first k are dropped. */
  function Withdrawals(conn: seq<bool>, table: seq<Route>, i: int, k: nat): seq<DistMsg>
    requires k <= |table|
  {
    if k == 0 then []
    else Withdrawals(conn, table, i, k - 1) + if table[k - 1].nextHop == i then Tell(conn, -1, k - 1, -1, |conn|)
       else []
  }

  lemma {:induction false} SameWithdrawals(conn: seq<bool>, table: seq<Route>, present: seq<Route>, i: int, k: nat)
    requires k <= |table| == |present| && forall d :: 0 <= d < k ==>
              (table[d].nextHop == i <==> present[d].nextHop == i)
    ensures Withdrawals(conn, table, i, k) == Withdrawals(conn, present, i, k)
  {
    if k > 0 {
      SameWithdrawals(conn, table, present, i, k - 1);
    }
  }

  /** The neighbours left when the silent ones among the first k are gone. */
  function Survivors(conn: seq<bool>, last: seq<int>, now: int, k: nat): (r: seq<bool>)
    requires |conn| == |last|
    ensures |r| == |conn| && forall x :: 0 <= x < |conn| ==> r[x] == (conn[x] && (x < k ==> now - last[x] < TIMEOUT))
  {
    seq(|conn|, x requires 0 <= x < |conn| => conn[x] && (x < k ==> now - last[x] < TIMEOUT))
  }

  /** In the sweep of a whole round: a neighbour is lost when nothing has come from it for three seconds. The
      sender of the round is new or stays, unless the sweep comes three seconds after its stamp. */
  lemma SilentForThree(conn: seq<bool>, last: seq<int>, h: int, t1: int, t3: int, x: nat)
    requires |conn| == |last| && -1 <= h < |conn| && x < |conn|
    ensures var r := Survivors(Joined(conn, h), Stamped(last, h, t1), t3, |conn|);
            r[x] <==> if x == h then t3 < t1 + 3 else conn[x] && t3 < last[x] + 3
  {
  }

  /** What the step of an expiry sweep for node i tells: the routes through it are gone. */
  function ExpirySend(conn: seq<bool>, last: seq<int>, table: seq<Route>, now: int, i: nat): seq<DistMsg>
    requires i < |conn| == |last| == |table|
  {
    if conn[i] && now - last[i] >= TIMEOUT then Withdrawals(Survivors(conn, last, now, i + 1), table, i, |table|)
        else []
  }

  /** What an expiry sweep tells, one silent neighbour after the other. */
  function ExpirySends(conn: seq<bool>, last: seq<int>, table: seq<Route>, now: int, k: nat): seq<DistMsg>
    requires k <= |conn| == |last| == |table|
  {
    if k == 0 then []
    else ExpirySends(conn, last, table, now, k - 1) + ExpirySend(conn, last, table, now, k - 1)
  }

  /** An entry after the neighbours have shrunk from conn to conn'. */
  function Dropped(conn: seq<bool>, conn': seq<bool>, e: Route): Route {
    if e.nextHop != -1 && Up(conn, e.nextHop) && !Up(conn', e.nextHop) then UNREACHABLE else e
  }

  function AllKept(conn: seq<bool>, conn': seq<bool>, table: seq<Route>): (r: seq<Route>)
    ensures |r| == |table| && forall d :: 0 <= d < |table| ==> r[d] == Dropped(conn, conn', table[d])
  {
    seq(|table|, d requires 0 <= d < |table| => Dropped(conn, conn', table[d]))
  }

  /** Losing neighbour i after others. */
  lemma StillKept(conn: seq<bool>, before: seq<bool>, left: seq<bool>, table: seq<Route>, i: nat)
    requires i < |conn| == |before| == |left| == |table| && before[i] && left == before[i := false]
    requires forall x :: 0 <= x < |conn| && before[x] ==> conn[x]
    ensures AllKept(before, left, AllKept(conn, before, table)) == AllKept(conn, left, table)
    ensures Withdrawals(left, AllKept(conn, before, table), i, |table|) == Withdrawals(left, table, i, |table|)
  {
    SameWithdrawals(left, table, AllKept(conn, before, table), i, |table|);
  }

  /** Dropping the routes of lost neighbours leaves no route without its neighbour. */
  lemma KeptHopsUp(me: int, conn: seq<bool>, conn': seq<bool>, table: seq<Route>)
    ensures HopsUp(me, conn, table) ==> HopsUp(me, conn', AllKept(conn, conn', table))
  {
  }

  function Joined(conn: seq<bool>, h: int): (r: seq<bool>)
    requires -1 <= h < |conn|
    ensures |r| == |conn|
  {
    if h == -1 then conn else conn[h := true]
  }

  function Stamped(last: seq<int>, h: int, now: int): (r: seq<int>)
    requires -1 <= h < |last|
    ensures |r| == |last|
  {
    if h == -1 then last else last[h := now]
  }

  /** The table after the link to h has been offered as a route to h. */
  function Offered(conn: seq<bool>, costs: seq<int>, me: int, table: seq<Route>, h: int): (r: seq<Route>)
    requires |costs| == |table| && -1 <= h < |table|
    ensures |r| == |table|
  {
    if h == -1 then table else table[h := Updated(conn, me, table[h], h, costs[h], h)]
  }

  function OfferSends(conn: seq<bool>, costs: seq<int>, me: int, table: seq<Route>, h: int): seq<DistMsg>
    requires |costs| == |table| && -1 <= h < |table|
  {
    if h == -1 then [] else UpdateSends(conn, me, table[h], h, costs[h], h)
  }

  /** The table after a datagram from h, before its request is looked at; conn' are the neighbours
      left after the expiry sweep. */
  function HeardTable(conn: seq<bool>, conn': seq<bool>, costs: seq<int>, me: int, table: seq<Route>,
                      h: int): (r: seq<Route>)
    requires |conn| == |conn'| == |costs| == |table| && -1 <= h < |table|
    ensures |r| == |table|
  {
    AllKept(Joined(conn, h), conn', Offered(Joined(conn, h), costs, me, table, h))
  }

  /** What the router tells on a datagram from h, before its request is looked at: a better route
      along the link, all routes when an update is due, the routes lost with silent neighbours. */
  function HeardSends(conn: seq<bool>, last: seq<int>, costs: seq<int>, me: int, table: seq<Route>, h: int, now: int,
                      due: bool): seq<DistMsg>
    requires |conn| == |last| == |costs| == |table| && -1 <= h < |table|
  {
    var c1 := Joined(conn, h);
    var t1 := Offered(c1, costs, me, table, h);
    OfferSends(c1, costs, me, table, h)
    + (if due then TellAll(c1, t1, |t1|) else [])
    + ExpirySends(c1, last, t1, now, |t1|)
  }

  lemma HeardSendsAre(conn: seq<bool>, last: seq<int>, costs: seq<int>, me: int, table: seq<Route>, h: int, now: int,
                      due: bool,
                      s0: seq<DistMsg>, s1: seq<DistMsg>, s2: seq<DistMsg>, s3: seq<DistMsg>)
    requires |conn| == |last| == |costs| == |table| && -1 <= h < |table|
    requires s1 == s0 + OfferSends(Joined(conn, h), costs, me, table, h)
    requires var t1 := Offered(Joined(conn, h), costs, me, table, h);
             && s2 == s1 + (if due then TellAll(Joined(conn, h), t1, |t1|) else [])
             && s3 == s2 + ExpirySends(Joined(conn, h), last, t1, now, |t1|)
    ensures s3 == s0 + HeardSends(conn, last, costs, me, table, h, now, due)
  {
  }

  /** The table after the request. */
  function AnsweredTable(conn: seq<bool>, costs: seq<int>, me: int, table: seq<Route>, h: int,
                         request: Request): seq<Route>
    requires |conn| == |costs| == |table| && -1 <= h < |table|
    requires request.CostChange? ==> 0 <= request.node < |table|
  {
    match request
    case Hello => table
    case CostChange(node, cost) =>
      if conn[node] then table[node := Updated(conn, me, table[node], node, cost, node)] else table
    case Dist(node, dist) =>
      if h != -1 && table[h].dist >= 0 && 0 <= node < |table|
      then table[node := Updated(conn, me, table[node], node, Through(dist, costs[h]), h)] else table
  }

  /** What the request makes the router tell. */
  function AnswerSends(conn: seq<bool>, costs: seq<int>, me: int, table: seq<Route>, h: int,
                       request: Request): seq<DistMsg>
    requires |conn| == |costs| == |table| && -1 <= h < |table|
    requires request.CostChange? ==> 0 <= request.node < |table|
  {
    match request
    case Hello => []
    case CostChange(node, cost) => if conn[node] then UpdateSends(conn, me, table[node], node, cost, node) else []
    case Dist(node, dist) =>
      if h != -1 && table[h].dist >= 0 && 0 <= node < |table|
      then UpdateSends(conn, me, table[node], node, Through(dist, costs[h]), h) else []
  }

  function TellAll(conn: seq<bool>, table: seq<Route>, k: nat): seq<DistMsg>
    requires k <= |table|
  {
    if k == 0 then []
    else TellAll(conn, table, k - 1)
         + if table[k - 1].dist != -1 then Tell(conn, table[k - 1].nextHop, k - 1, table[k - 1].dist, |conn|) else []
  }

  // ---------- When a round keeps every route on a present neighbour ----------

  datatype State = State(me: int, conn: seq<bool>, costs: seq<int>, table: seq<Route>, last: seq<int>)

  predicate EntryOk(e: Route) {
    (e.dist == -1 <==> e.nextHop == -1) && -1 <= e.dist <= LIMIT && -1 <= e.nextHop < NODES
  }

  ghost predicate StateOk(s: State) {
    && 0 <= s.me < NODES && |s.conn| == |s.costs| == |s.table| == |s.last| == NODES
    && !s.conn[s.me] && s.table[s.me] == Route(0, s.me)
    && (forall i :: 0 <= i < NODES && i != s.me ==> 0 < s.costs[i])
    && (forall d :: 0 <= d < NODES ==> EntryOk(s.table[d]))
  }

  ghost predicate InputOk(s: State, h: int, request: Request) {
    StateOk(s) && Sender(h) && h != s.me && RequestOk(request)
  }

  /** The state after a round: the sender is stamped at t1, the sweep reads the clock at t3. */
  ghost function AfterRound(s: State, h: int, t1: int, t3: int, request: Request): State
    requires InputOk(s, h, request)
  {
    var last := Stamped(s.last, h, t1);
    var conn := Survivors(Joined(s.conn, h), last, t3, |s.conn|);
    var heard := HeardTable(s.conn, conn, s.costs, s.me, s.table, h);
    var costs := if request.CostChange? then s.costs[request.node := request.cost] else s.costs;
    State(s.me, conn, costs, AnsweredTable(conn, s.costs, s.me, heard, h, request), last)
  }

  ghost function RoundSends(s: State, h: int, t1: int, t3: int, due: bool, request: Request): seq<DistMsg>
    requires InputOk(s, h, request)
  {
    var last := Stamped(s.last, h, t1);
    var conn := Survivors(Joined(s.conn, h), last, t3, |s.conn|);
    HeardSends(s.conn, last, s.costs, s.me, s.table, h, t3, due)
    + AnswerSends(conn, s.costs, s.me, HeardTable(s.conn, conn, s.costs, s.me, s.table, h), h, request)
  }

  lemma RoundSendsAre(s: State, h: int, t1: int, t3: int, due: bool, request: Request, s0: seq<DistMsg>,
                      s1: seq<DistMsg>, s2: seq<DistMsg>)
    requires InputOk(s, h, request)
    requires s1 == s0 + HeardSends(s.conn, Stamped(s.last, h, t1), s.costs, s.me, s.table, h, t3, due)
    requires var conn := Survivors(Joined(s.conn, h), Stamped(s.last, h, t1), t3, |s.conn|);
             s2 == s1 + AnswerSends(conn, s.costs, s.me, HeardTable(s.conn, conn, s.costs, s.me, s.table, h), h,
                 request)
    ensures s2 == s0 + RoundSends(s, h, t1, t3, due, request)
  {
  }

  ghost predicate RoundSafe(s: State, h: int, t1: int, t3: int, request: Request) {
    InputOk(s, h, request) && HopsUp(s.me, s.conn, s.table) ==>
      var s' := AfterRound(s, h, t1, t3, request); HopsUp(s'.me, s'.conn, s'.table)
  }

  lemma RoundKeepsHops(s: State, h: int, t1: int, t3: int, request: Request)
    requires t3 - t1 < TIMEOUT
    ensures RoundSafe(s, h, t1, t3, request)
  {
    if InputOk(s, h, request) && HopsUp(s.me, s.conn, s.table) {
      var joined := Joined(s.conn, h);
      var offered := Offered(joined, s.costs, s.me, s.table, h);
      assert HopsUp(s.me, joined, offered);
      KeptHopsUp(s.me, joined, AfterRound(s, h, t1, t3, request).conn, offered);
    }
  }

  /** A router with the neighbours 1 and 2 and a route to 1 by way of 2. */
  ghost function Detour(t: int): State {
    State(0, seq(NODES, i => i == 1 || i == 2), seq(NODES, i => if i == 1 then 9 else 1),
          seq(NODES, i => if i == 0 then Route(0, 0) else if i == 1 then Route(3, 2)
                          else if i == 2 then Route(1, 2) else UNREACHABLE),
          seq(NODES, _ => t))
  }

  /** When its sender expires in the same round, an advert can install a route through a node that is no
      neighbour any more. */
  lemma RouteThroughExpired(t1: int, t3: int)
    requires TIMEOUT <= t3 - t1
    ensures !RoundSafe(Detour(t3), 1, t1, t3, Dist(3, 4))
  {
    var s := Detour(t3);
    assert InputOk(s, 1, Dist(3, 4)) && HopsUp(s.me, s.conn, s.table);
    var s' := AfterRound(s, 1, t1, t3, Dist(3, 4));
    assert !s'.conn[1] && s'.conn[2];
    assert s'.table[3] == Route(13, 1);
  }

  /** The exact condition: a round that starts with every route on a present neighbour ends so, whatever
      the state and the datagram, if and only if less than the timeout passes between its two readings. */
  lemma RoundSafeIff(t1: int, t3: int)
    ensures (forall s, h, request :: RoundSafe(s, h, t1, t3, request)) <==> t3 - t1 < TIMEOUT
  {
    if t3 - t1 < TIMEOUT {
      forall s, h, request
        ensures RoundSafe(s, h, t1, t3, request)
      {
        RoundKeepsHops(s, h, t1, t3, request);
      }
    } else {
      RouteThroughExpired(t1, t3);
    }
  }

  // ---------- A change of cost ----------

  /** When the cost of a link that is up is set, the route along it follows, and only the entry of that
      neighbour is touched. Up to 1000 the neighbour is reachable afterwards, at the cost of the link at
      most; a link dearer than that is no route. */
  lemma CostFollows(conn: seq<bool>, costs: seq<int>, me: int, table: seq<Route>, h: int, node: int, cost: int)
    requires |conn| == |costs| == |table| == NODES && -1 <= h < NODES && 0 <= node < NODES && 0 < cost
    requires conn[node] && node != me && EntryOk(table[node])
    ensures var t := AnsweredTable(conn, costs, me, table, h, CostChange(node, cost));
            && |t| == NODES && (forall d :: 0 <= d < NODES && d != node ==> t[d] == table[d])
            && (cost <= 1000 ==> 0 <= t[node].dist <= cost && (t[node].nextHop == node ==> t[node].dist == cost))
            && (1000 < cost ==> t[node].nextHop != node)
  {
  }

  /** The cost of a link that is down changes no route yet. */
  lemma CostOfDownLink(conn: seq<bool>, costs: seq<int>, me: int, table: seq<Route>, h: int, node: int, cost: int)
    requires |conn| == |costs| == |table| == NODES && -1 <= h < NODES && 0 <= node < NODES && !conn[node]
    ensures AnsweredTable(conn, costs, me, table, h, CostChange(node, cost)) == table
  {
  }

  // ---------- When an advert is looked at ----------

  /** Router h has just been heard from over a link within the limit. Its advert is looked at unless the
      sweep of the same round, which leaves the neighbours conn', has taken away the route to h. */
  lemma AdvertLookedAtIff(s: State, h: int, conn': seq<bool>)
    requires StateOk(s) && 0 <= h < NODES && h != s.me && s.costs[h] <= LIMIT && |conn'| == NODES
    ensures var joined := Joined(s.conn, h);
            var e := Offered(joined, s.costs, s.me, s.table, h)[h];
            && e.dist >= 0
            && (HeardTable(s.conn, conn', s.costs, s.me, s.table, h)[h].dist >= 0
                <==> !(Up(joined, e.nextHop) && !Up(conn', e.nextHop)))
  {
    assert EntryOk(s.table[h]);
  }
}
