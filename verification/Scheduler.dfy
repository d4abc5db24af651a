/** Articles in flight, and the totals that can be read off the map that records them. */
module Inflight {
  import opened Common
  import opened Queue
  import opened Sums

  datatype Flight = Flight(server: Option<nat>, size: nat)

  type Flights = map<ArticleId, Flight>

  /** The sizes of the articles in flight on one server. */
  ghost function OnServer(active: Flights, server: nat): map<ArticleId, nat> {
    map id | id in active && active[id].server == Some(server) :: active[id].size
  }

  /** The articles of one file in flight. */
  ghost function OfFile(active: Flights, nzb: nat, file: nat): set<ArticleId> {
    set id | id in active && id.nzb == nzb && id.file == file
  }

  lemma FileLaunch(active: Flights, id: ArticleId, f: Flight, nzb: nat, file: nat)
    requires id !in active
    ensures OfFile(active[id := f], nzb, file)
         == if id.nzb == nzb && id.file == file then OfFile(active, nzb, file) + {id}
            else OfFile(active, nzb, file)
  {
  }

  lemma FileLand(active: Flights, id: ArticleId, nzb: nat, file: nat)
    requires id in active
    ensures OfFile(active - {id}, nzb, file)
         == if id.nzb == nzb && id.file == file then OfFile(active, nzb, file) - {id}
            else OfFile(active, nzb, file)
  {
  }

  lemma ServerLaunch(active: Flights, id: ArticleId, f: Flight, server: nat)
    requires id !in active
    ensures |OnServer(active[id := f], server)|
         == |OnServer(active, server)| + if f.server == Some(server) then 1 else 0
    ensures Sum(OnServer(active[id := f], server))
         == Sum(OnServer(active, server)) + if f.server == Some(server) then f.size else 0
  {
    var before, after := OnServer(active, server), OnServer(active[id := f], server);
    if f.server == Some(server) {
      assert after == before[id := f.size];
      assert after - {id} == before;
      SumWithout(after, id);
    } else {
      assert after == before;
    }
  }

  lemma ServerLand(active: Flights, id: ArticleId, server: nat)
    requires id in active
    ensures |OnServer(active, server)|
         == |OnServer(active - {id}, server)| + if active[id].server == Some(server) then 1 else 0
    ensures Sum(OnServer(active, server))
         == Sum(OnServer(active - {id}, server)) + if active[id].server == Some(server) then active[id].size else 0
  {
    assert (active - {id})[id := active[id]] == active;
    ServerLaunch(active - {id}, id, active[id], server);
  }
}

/** The weighted fair queue over news servers. */
module Scheduler {
  import opened Common
  import opened Inflight
  import opened Queue
  import opened Sums

  /** `ewma` is zero until a download has been observed. */
  datatype Slot = Slot(
    server: nat, level: nat, maxConnections: nat, active: nat, pending: nat,
    ewma: real, backoff: bool, bytes: nat, succeeded: nat, failed: nat)

  function Baseline(s: Slot): real {
    (if s.maxConnections == 0 then 1 else s.maxConnections) as real * 500_000.0
  }

  function Weight(s: Slot): (w: real)
    ensures w > 0.0
  {
    if s.ewma > 0.0 then s.ewma else Baseline(s)
  }

  /** Bytes pending per unit of throughput. */
  function Ratio(s: Slot): real {
    s.pending as real / Weight(s)
  }

  predicate HasCapacity(s: Slot) {
    s.active < s.maxConnections && !s.backoff
  }

  function Assign(s: Slot, size: nat): Slot {
    s.(active := s.active + 1, pending := s.pending + size)
  }

  function Release(s: Slot, size: nat): Slot {
    s.(active := Less(s.active, 1), pending := Less(s.pending, size))
  }

  function Observe(s: Slot, bytes: nat, seconds: real): Slot {
    if seconds < 0.001 || bytes == 0 then s
    else
      var observed := bytes as real / seconds;
      s.(ewma := if s.ewma <= 0.0 then observed else 0.3 * observed + 0.7 * s.ewma)
  }

  /** The new estimate lies between the old one and the observation. */
  lemma EstimateBetween(s: Slot, bytes: nat, seconds: real)
    requires seconds >= 0.001 && bytes > 0 && s.ewma > 0.0
    ensures var observed := bytes as real / seconds;
            var e := Observe(s, bytes, seconds).ewma;
            (observed <= e <= s.ewma || s.ewma <= e <= observed) && e > 0.0
  {
    var observed := bytes as real / seconds;
    assert observed > 0.0;
  }

  /**
   * The first observation is the estimate; each later one leaves seven tenths of the difference. What
   * took less than a millisecond or had no bytes is not an observation.
   */
  lemma EstimateMoves(s: Slot, bytes: nat, seconds: real)
    ensures var t := Observe(s, bytes, seconds);
            && t == s.(ewma := t.ewma)
            && if bytes == 0 || seconds < 0.001 then t.ewma == s.ewma
               else if s.ewma > 0.0 then
                 10.0 * (t.ewma - bytes as real / seconds) == 7.0 * (s.ewma - bytes as real / seconds)
               else t.ewma * seconds == bytes as real
  {
  }

  function Complete(s: Slot, size: nat, seconds: real, success: bool): Slot {
    var r := Release(s, size);
    if success
    then Observe(r, size, seconds).(bytes := s.bytes + size, succeeded := s.succeeded + 1)
    else r.(failed := s.failed + 1)
  }

  function SlotOf(slots: seq<Slot>, server: nat): (i: nat)
    ensures i <= |slots|
    ensures i < |slots| ==> slots[i].server == server
    ensures forall j :: 0 <= j < i ==> slots[j].server != server
  {
    if slots == [] then 0
    else if slots[0].server == server then 0
    else 1 + SlotOf(slots[1..], server)
  }

  predicate DistinctServers(slots: seq<Slot>) {
    forall i, j :: 0 <= i < j < |slots| ==> slots[i].server != slots[j].server
  }

  // ---- Choosing a server ----

  /** The lowest level with spare capacity. */
  function LowestLevel(slots: seq<Slot>): Option<nat> {
    if slots == [] then None
    else
      var last := slots[|slots| - 1];
      var best := LowestLevel(slots[..|slots| - 1]);
      if !HasCapacity(last) then best
      else if best.Some? && best.value <= last.level then best
      else Some(last.level)
  }

  predicate Before(a: Slot, b: Slot) {
    Ratio(a) < Ratio(b) || (Ratio(a) == Ratio(b) && a.active < b.active)
  }

  /** The first of the least loaded slots at a level. */
  function LeastLoaded(slots: seq<Slot>, level: nat): (r: Option<nat>)
    ensures r.Some? ==> r.value < |slots|
  {
    if slots == [] then None
    else
      var n := |slots| - 1;
      var best := LeastLoaded(slots[..n], level);
      if slots[n].level != level || !HasCapacity(slots[n]) then best
      else if best.Some? && !Before(slots[n], slots[best.value]) then best
      else Some(n)
  }

  function Select(slots: seq<Slot>): Option<nat> {
    var level := LowestLevel(slots);
    if level.None? then None else
      var k := LeastLoaded(slots, level.value);
      if k.None? then None else Some(slots[k.value].server)
  }

  lemma {:induction false} LowestLevelIsLeast(slots: seq<Slot>)
    ensures var r := LowestLevel(slots);
            && (r.None? <==> forall i :: 0 <= i < |slots| ==> !HasCapacity(slots[i]))
            && (r.Some? ==> exists i :: 0 <= i < |slots| && HasCapacity(slots[i]) && slots[i].level == r.value)
            && (r.Some? ==> forall i :: 0 <= i < |slots| && HasCapacity(slots[i]) ==> r.value <= slots[i].level)
  {
    hide HasCapacity;
    if slots != [] {
      var n := |slots| - 1;
      LowestLevelIsLeast(slots[..n]);
      assert forall i :: 0 <= i < n ==> slots[..n][i] == slots[i];
    }
  }

  predicate AtLevel(s: Slot, level: nat) {
    s.level == level && HasCapacity(s)
  }

  lemma BeforeTransitive(a: Slot, b: Slot, c: Slot)
    requires Before(a, b) && !Before(c, b)
    ensures Before(a, c)
  {
  }

  lemma {:induction false} LeastLoadedIsFirst(slots: seq<Slot>, level: nat)
    ensures var r := LeastLoaded(slots, level);
            && (r.None? <==> forall i :: 0 <= i < |slots| ==> !AtLevel(slots[i], level))
            && (r.Some? ==> AtLevel(slots[r.value], level))
            && (r.Some? ==> forall i :: 0 <= i < |slots| && AtLevel(slots[i], level) ==>
                  !Before(slots[i], slots[r.value]) && (i < r.value ==> Before(slots[r.value], slots[i])))
  {
    hide HasCapacity, Ratio;
    if slots != [] {
      var n := |slots| - 1;
      LeastLoadedIsFirst(slots[..n], level);
      var best := LeastLoaded(slots[..n], level);
      assert forall i :: 0 <= i < n ==> slots[..n][i] == slots[i];
      if AtLevel(slots[n], level) && best.Some? && Before(slots[n], slots[best.value]) {
        forall i | 0 <= i < n && AtLevel(slots[i], level)
          ensures Before(slots[n], slots[i])
        {
          BeforeTransitive(slots[n], slots[best.value], slots[i]);
        }
      }
    }
  }

  /** Slot k is the first among the least loaded of the lowest level with spare capacity. */
  ghost predicate Chosen(slots: seq<Slot>, k: nat) {
    && k < |slots| && HasCapacity(slots[k])
    && (forall i :: 0 <= i < |slots| && HasCapacity(slots[i]) ==> slots[k].level <= slots[i].level)
    && (forall i :: 0 <= i < |slots| && AtLevel(slots[i], slots[k].level) ==>
          !Before(slots[i], slots[k]) && (i < k ==> Before(slots[k], slots[i])))
  }

  lemma SelectIsFair(slots: seq<Slot>)
    ensures Select(slots).None? <==> forall i :: 0 <= i < |slots| ==> !HasCapacity(slots[i])
    ensures Select(slots).Some? ==> exists k: nat :: Chosen(slots, k) && slots[k].server == Select(slots).value
  {
    hide HasCapacity, Before;
    LowestLevelIsLeast(slots);
    var level := LowestLevel(slots);
    if level.Some? {
      LeastLoadedIsFirst(slots, level.value);
      var i :| 0 <= i < |slots| && HasCapacity(slots[i]) && slots[i].level == level.value;
      assert AtLevel(slots[i], level.value);
      var k := LeastLoaded(slots, level.value).value;
      assert AtLevel(slots[k], level.value);
      assert Chosen(slots, k);
    }
  }

  /** The estimated bytes per second, or half a million for each connection while there is no estimate. */
  ghost function Speed(s: Slot): (v: real)
    ensures v > 0.0
  {
    if s.ewma > 0.0 then s.ewma else if s.maxConnections > 1 then 500_000.0 * s.maxConnections as real else 500_000.0
  }

  /** Slot a has not more pending for its speed than slot b, which of equals has not fewer connections in use. */
  ghost predicate NotBusier(a: Slot, b: Slot) {
    || a.pending as real * Speed(b) < b.pending as real * Speed(a)
    || (a.pending as real * Speed(b) == b.pending as real * Speed(a) && a.active <= b.active)
  }

  lemma CompareRatios(a: Slot, b: Slot)
    ensures Ratio(a) < Ratio(b) <==> a.pending as real * Speed(b) < b.pending as real * Speed(a)
    ensures Ratio(a) == Ratio(b) <==> a.pending as real * Speed(b) == b.pending as real * Speed(a)
  {
    assert Weight(a) == Speed(a) && Weight(b) == Speed(b);
    CrossMultiply(a.pending as real, Speed(a), b.pending as real, Speed(b));
  }

  lemma CrossMultiply(p: real, v: real, q: real, w: real)
    requires v > 0.0 && w > 0.0
    ensures p / v < q / w <==> p * w < q * v
    ensures p / v == q / w <==> p * w == q * v
  {
    var x, y := p / v, q / w;
    assert p == x * v && q == y * w;
    assert p * w == x * (v * w) && q * v == y * (v * w);
    ProductOrder(x, y, v * w);
  }

  lemma ProductOrder(x: real, y: real, z: real)
    requires z > 0.0
    ensures x < y <==> x * z < y * z
    ensures x == y <==> x * z == y * z
  {
    if x < y {
      assert (y - x) * z > 0.0;
    } else if x > y {
      assert (x - y) * z > 0.0;
    }
  }

  /** A connection is free and the server is not backed off. */
  ghost predicate Free(s: Slot) {
    s.active < s.maxConnections && !s.backoff
  }

  /**
   * Slot k is free and of the lowest level of the free ones, there of the least pending bytes for its
   * speed, of these of the fewest connections in use, and of these the first.
   */
  ghost predicate IdlestFirst(slots: seq<Slot>, k: nat) {
    && k < |slots| && Free(slots[k])
    && forall i :: 0 <= i < |slots| && Free(slots[i]) ==>
         && slots[k].level <= slots[i].level
         && (slots[k].level == slots[i].level ==> NotBusier(slots[k], slots[i]) && (i < k ==> !NotBusier(slots[i], slots[k])))
  }

  lemma ChosenIsIdlest(slots: seq<Slot>, k: nat)
    requires Chosen(slots, k)
    ensures IdlestFirst(slots, k)
  {
    hide Ratio, Speed;
    forall i | 0 <= i < |slots| && Free(slots[i])
      ensures slots[k].level <= slots[i].level
      ensures slots[k].level == slots[i].level ==> NotBusier(slots[k], slots[i]) && (i < k ==> !NotBusier(slots[i], slots[k]))
    {
      assert HasCapacity(slots[i]);
      CompareRatios(slots[k], slots[i]);
      CompareRatios(slots[i], slots[k]);
      if slots[k].level == slots[i].level {
        assert AtLevel(slots[i], slots[k].level);
      }
    }
  }

  /** The server selected is the idlest; none is selected only when none is free. */
  lemma SelectsIdlest(slots: seq<Slot>)
    ensures Select(slots).None? <==> forall i :: 0 <= i < |slots| ==> !Free(slots[i])
    ensures Select(slots).Some? ==> exists k: nat :: IdlestFirst(slots, k) && slots[k].server == Select(slots).value
  {
    SelectIsFair(slots);
    assert forall i :: 0 <= i < |slots| ==> (HasCapacity(slots[i]) <==> Free(slots[i]));
    hide Select, Chosen, IdlestFirst;
    if Select(slots).Some? {
      var k: nat :| Chosen(slots, k) && slots[k].server == Select(slots).value;
      ChosenIsIdlest(slots, k);
    }
  }

  // ---- Capacity ----

  function Available(slots: seq<Slot>): nat {
    if slots == [] then 0
    else
      var last := slots[|slots| - 1];
      Available(slots[..|slots| - 1]) + if last.backoff then 0 else Less(last.maxConnections, last.active)
  }

  function MaxConnections(slots: seq<Slot>): nat {
    if slots == [] then 0 else MaxConnections(slots[..|slots| - 1]) + slots[|slots| - 1].maxConnections
  }

  /** There is capacity exactly when a server can be selected. */
  lemma {:induction false} CapacityMeansSelection(slots: seq<Slot>)
    ensures Available(slots) > 0 <==> Select(slots).Some?
  {
    SelectIsFair(slots);
    hide Select;
    CapacitySomewhere(slots);
  }

  lemma {:induction false} CapacitySomewhere(slots: seq<Slot>)
    ensures Available(slots) == 0 <==> forall i :: 0 <= i < |slots| ==> !HasCapacity(slots[i])
  {
    if slots != [] {
      var n := |slots| - 1;
      CapacitySomewhere(slots[..n]);
      assert forall i :: 0 <= i < n ==> slots[..n][i] == slots[i];
    }
  }

  lemma {:induction false} AvailableUpdate(slots: seq<Slot>, i: nat, s: Slot)
    requires i < |slots|
    ensures Available(slots[i := s]) + Available([slots[i]]) == Available(slots) + Available([s])
  {
    var n := |slots| - 1;
    assert [slots[i]][..0] == [] && [s][..0] == [];
    if i == n {
      assert slots[i := s][..n] == slots[..n];
    } else {
      AvailableUpdate(slots[..n], i, s);
      assert slots[i := s][..n] == slots[..n][i := s];
    }
  }

  /** Each assignment to the selected server uses up one connection, so as many more can be made as are available. */
  lemma AssignmentUsesOne(slots: seq<Slot>, size: nat)
    requires DistinctServers(slots) && Select(slots).Some?
    ensures var k := SlotOf(slots, Select(slots).value);
            && k < |slots| && Free(slots[k])
            && Available(slots[k := Assign(slots[k], size)]) + 1 == Available(slots)
  {
    SelectsIdlest(slots);
    var j: nat :| IdlestFirst(slots, j) && slots[j].server == Select(slots).value;
    hide Select, NotBusier, Speed;
    var k := SlotOf(slots, slots[j].server);
    assert k == j;
    AvailableUpdate(slots, k, Assign(slots[k], size));
    assert [slots[k]][..0] == [] && [Assign(slots[k], size)][..0] == [];
  }

  /** With nothing in flight and no server backed off every connection is available. */
  lemma {:induction false} AllAvailable(slots: seq<Slot>)
    requires forall i :: 0 <= i < |slots| ==> slots[i].active == 0 && !slots[i].backoff
    ensures Available(slots) == MaxConnections(slots)
  {
    if slots != [] {
      AllAvailable(slots[..|slots| - 1]);
    }
  }

  // ---- The slots and the articles in flight ----

  /** A slot counts exactly the articles in flight that were assigned to its server. */
  ghost predicate Agrees(s: Slot, active: Flights) {
    && s.active == |OnServer(active, s.server)| <= s.maxConnections
    && s.pending == Sum(OnServer(active, s.server))
  }

  ghost predicate AllAgree(slots: seq<Slot>, active: Flights) {
    DistinctServers(slots) && forall i :: 0 <= i < |slots| ==> Agrees(slots[i], active)
  }

  lemma LaunchAgrees(slots: seq<Slot>, active: Flights, k: nat, id: ArticleId, size: nat)
    requires AllAgree(slots, active) && k < |slots| && id !in active
    requires HasCapacity(slots[k])
    ensures AllAgree(slots[k := Assign(slots[k], size)], active[id := Flight(Some(slots[k].server), size)])
  {
    var flight := Flight(Some(slots[k].server), size);
    var launched := slots[k := Assign(slots[k], size)];
    forall i | 0 <= i < |slots|
      ensures Agrees(launched[i], active[id := flight])
    {
      ServerLaunch(active, id, flight, slots[i].server);
      assert Agrees(slots[i], active);
    }
  }

  lemma LandAgrees(slots: seq<Slot>, active: Flights, k: nat, id: ArticleId, seconds: real, success: bool)
    requires AllAgree(slots, active) && k < |slots|
    requires id in active && active[id].server == Some(slots[k].server)
    ensures AllAgree(slots[k := Complete(slots[k], active[id].size, seconds, success)], active - {id})
  {
    var landed := slots[k := Complete(slots[k], active[id].size, seconds, success)];
    forall i | 0 <= i < |slots|
      ensures Agrees(landed[i], active - {id})
    {
      ServerLand(active, id, slots[i].server);
      assert Agrees(slots[i], active);
    }
  }

  lemma LandElsewhereAgrees(slots: seq<Slot>, active: Flights, id: ArticleId)
    requires AllAgree(slots, active) && id in active
    requires forall i :: 0 <= i < |slots| ==> active[id].server != Some(slots[i].server)
    ensures AllAgree(slots, active - {id})
  {
    forall i | 0 <= i < |slots|
      ensures Agrees(slots[i], active - {id})
    {
      ServerLand(active, id, slots[i].server);
      assert Agrees(slots[i], active);
    }
  }

  lemma {:induction false} SameConnections(s: seq<Slot>, t: seq<Slot>)
    requires |s| == |t| && forall i :: 0 <= i < |s| ==> s[i].maxConnections == t[i].maxConnections
    ensures MaxConnections(s) == MaxConnections(t)
  {
    if s != [] {
      SameConnections(s[..|s| - 1], t[..|t| - 1]);
    }
  }

  lemma SameLoad(s: seq<Slot>, t: seq<Slot>, active: Flights)
    requires AllAgree(s, active) && |s| == |t|
    requires forall i :: 0 <= i < |s| ==>
               t[i].server == s[i].server && t[i].active == s[i].active && t[i].pending == s[i].pending
               && t[i].maxConnections == s[i].maxConnections
    ensures AllAgree(t, active)
  {
    assert forall i :: 0 <= i < |s| ==> Agrees(s[i], active);
  }

  /** Assigning an article and taking it back restores the load of the slot. */
  lemma RollBack(s: Slot, size: nat, seconds: real)
    ensures var r := Complete(Assign(s, size), size, seconds, false);
            r == s.(failed := s.failed + 1)
  {
  }

  /** A landed article is counted for its server as one that arrived, with its bytes, or as one that failed. */
  lemma CompletionCounted(s: Slot, size: nat, seconds: real, success: bool)
    ensures var t := Complete(Assign(s, size), size, seconds, success);
            && t.active == s.active && t.pending == s.pending
            && t.bytes == s.bytes + (if success then size else 0)
            && t.succeeded + t.failed == s.succeeded + s.failed + 1 && t.failed == s.failed + (if success then 0 else 1)
            && t.ewma == (if success then Observe(s, size, seconds).ewma else s.ewma)
            && (t.server, t.level, t.maxConnections, t.backoff) == (s.server, s.level, s.maxConnections, s.backoff)
  {
  }

  class ServerScheduler {
    var slots: seq<Slot>

    constructor (configured: seq<Slot>)
      ensures slots == configured
    {
      slots := configured;
    }

    method AssignToServer(server: nat, size: nat)
      modifies this
      ensures var k := SlotOf(old(slots), server);
              slots == if k < |old(slots)| then old(slots)[k := Assign(old(slots)[k], size)] else old(slots)
    {
      var k := SlotOf(slots, server);
      if k < |slots| {
        slots := slots[k := Assign(slots[k], size)];
      }
    }

    method CompleteOnServer(server: nat, size: nat, seconds: real, success: bool)
      modifies this
      ensures var k := SlotOf(old(slots), server);
              slots == if k < |old(slots)| then old(slots)[k := Complete(old(slots)[k], size, seconds, success)]
                       else old(slots)
    {
      var k := SlotOf(slots, server);
      if k < |slots| {
        slots := slots[k := Complete(slots[k], size, seconds, success)];
      }
    }

    /** Backing off changes no count. */
    method SetBackoff(server: nat, backoff: bool, ghost active: Flights)
      requires AllAgree(slots, active)
      modifies this
      ensures AllAgree(slots, active) && |slots| == |old(slots)|
      ensures forall i :: 0 <= i < |slots| ==>
                slots[i] == old(slots[i]).(backoff := if i == SlotOf(old(slots), server) then backoff else old(slots[i]).backoff)
    {
      var k := SlotOf(slots, server);
      if k < |slots| {
        assert Agrees(slots[k], active);
        slots := slots[k := slots[k].(backoff := backoff)];
      }
    }
  }
}
