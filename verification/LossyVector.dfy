/** What remains true of distance vectors on networks that lose, duplicate and reorder. */
module LossyVector {
  import opened DistanceVector

  /** The entries for d at the routers that are cut off from it, and the adverts about d that have been
      sent among them, each with its sender and receiver. Adverts may be delivered any number of
      times, in any order, or never; links come, go and change their costs. */
  datatype Lossy = Lossy(e: map<int, Route>, flight: set<(int, int, int)>)

  datatype LossyEvent =
    | Hear(from: int, to: int, dist: int, cost: int, conn: seq<bool>)
    | Tell(from: int, to: int)
    | Expire(node: int)

  ghost predicate LossyNext(d: int, s: Lossy, s': Lossy, ev: LossyEvent) {
    match ev
    case Hear(h, r, v, cost, conn) =>
      // an advert across a link of some present cost; what the router tells about it is a Tell
      && (h, r, v) in s.flight && r in s.e && r != d && 1 <= cost
      && s' == s.(e := s.e[r := Updated(conn, r, s.e[r], d, Through(v, cost), h)])
    case Tell(r, x) =>
      r in s.e && s' == s.(flight := s.flight + {(r, x, Advert(s.e[r], x))})
    case Expire(r) =>
      r in s.e && s' == s.(e := s.e[r := UNREACHABLE])
  }

  ghost predicate LossyRun(d: int, states: seq<Lossy>, events: seq<LossyEvent>) {
    |states| == |events| + 1 && forall k :: 0 <= k < |events| ==> LossyAt(d, states, events, k)
  }

  ghost predicate LossyAt(d: int, states: seq<Lossy>, events: seq<LossyEvent>, k: int) {
    0 <= k < |events| && k + 1 < |states| && LossyNext(d, states[k], states[k + 1], events[k])
  }

  ghost predicate LossyFloor(s: Lossy, f: int) {
    && (forall r :: r in s.e ==> AtLeast(s.e[r].dist, f))
    && (forall m :: m in s.flight ==> AtLeast(m.2, f))
  }

  /** Every entry a step installs is infinite or exceeds the floor by the cost of the link it came
      across, and the floor holds afterwards. */
  lemma LossyStep(d: int, s: Lossy, s': Lossy, ev: LossyEvent, f: int)
    requires LossyNext(d, s, s', ev) && LossyFloor(s, f)
    ensures LossyFloor(s', f) && s'.e.Keys == s.e.Keys
    ensures forall r :: r in s.e && r in s'.e && s'.e[r] != s.e[r] ==>
              s'.e[r].dist == -1 || (ev.Hear? && f + ev.cost <= s'.e[r].dist)
  {
  }

  /** The least finite distance to a node that is cut off never sinks, in any run on any network, and an entry
      that has changed since is above it. */
  lemma {:induction false} LossyFloorKept(d: int, states: seq<Lossy>, events: seq<LossyEvent>, i: nat, j: nat, f: int)
    requires LossyRun(d, states, events) && i <= j < |states| && LossyFloor(states[i], f)
    ensures LossyFloor(states[j], f) && states[j].e.Keys == states[i].e.Keys
    ensures forall r :: r in states[i].e && states[j].e[r] != states[i].e[r] ==>
              states[j].e[r].dist == -1 || f + 1 <= states[j].e[r].dist
    decreases j
  {
    if i < j {
      LossyFloorKept(d, states, events, i, j - 1, f);
      assert LossyAt(d, states, events, j - 1);
      LossyStep(d, states[j - 1], states[j], events[j - 1], f);
    }
  }
}
