/**
 The realtime slot map: last writer by timestamp wins. Times are epoch milliseconds; a payload's
 decimal value is already parsed.
 */
module RealtimeSlots {
  import opened Prelude

  datatype Payload = Payload(tenant: string, unit: string, tag: string, value: Option<real>, engineeringUnit: string,
                             timestamp: int, ingestionTimestamp: int)

  datatype SlotValue = SlotValue(value: Option<real>, engineeringUnit: string, timestamp: int,
                                 ingestionTimestamp: int, receivedAt: int)

  datatype TrackedSlot = TrackedSlot(unit: string, tag: string)

  predicate IsHex(c: char) { '0' <= c <= '9' || 'a' <= c <= 'f' || 'A' <= c <= 'F' }

  // 8-4-4-4-12 hexadecimal digits, case-insensitive.
  predicate IsUuidShaped(s: string) {
    |s| == 36 && forall i :: 0 <= i < 36 ==> if i in {8, 13, 18, 23} then s[i] == '-' else IsHex(s[i])
  }

  // Hexadecimal digits, in either case.
  predicate AllHex(s: string) { forall c :: c in s ==> c in "0123456789abcdefABCDEF" }

  // The five groups of a UUID, and the string they make.
  predicate AreGroups(s: string, a: string, b: string, c: string, d: string, e: string) {
    && s == a + "-" + b + "-" + c + "-" + d + "-" + e
    && |a| == 8 && |b| == 4 && |c| == 4 && |d| == 4 && |e| == 12
    && AllHex(a) && AllHex(b) && AllHex(c) && AllHex(d) && AllHex(e)
  }

  lemma UuidHasGroups(s: string)
    requires IsUuidShaped(s)
    ensures AreGroups(s, s[..8], s[9..13], s[14..18], s[19..23], s[24..])
  {
    assert AllHex(s[..8]) && AllHex(s[9..13]) && AllHex(s[14..18]) && AllHex(s[19..23]) && AllHex(s[24..]);
    var t := s[..8] + "-" + s[9..13] + "-" + s[14..18] + "-" + s[19..23] + "-" + s[24..];
    assert |t| == 36 && forall i :: 0 <= i < 36 ==> t[i] == s[i];
  }

  lemma GroupsMakeUuid(s: string, a: string, b: string, c: string, d: string, e: string)
    requires AreGroups(s, a, b, c, d, e)
    ensures IsUuidShaped(s)
  {
    var ab := a + "-" + b;
    var abc := ab + "-" + c;
    var abcd := abc + "-" + d;
    assert s == abcd + "-" + e;
    assert forall i :: 0 <= i < 23 ==> s[i] == abcd[i];
    assert forall i :: 0 <= i < 18 ==> abcd[i] == abc[i];
    assert forall i :: 0 <= i < 13 ==> abc[i] == ab[i];
    assert forall i :: 0 <= i < 8 ==> ab[i] == a[i] && a[i] in a;
    assert forall i :: 9 <= i < 13 ==> ab[i] in b;
    assert forall i :: 14 <= i < 18 ==> abc[i] in c;
    assert forall i :: 19 <= i < 23 ==> abcd[i] in d;
    assert forall i :: 24 <= i < 36 ==> s[i] in e;
  }

  /** A UUID-shaped string is five groups of 8, 4, 4, 4 and 12 hexadecimal digits joined by dashes, and
      nothing else is. */
  lemma UuidShapeIsFiveGroups(s: string)
    ensures IsUuidShaped(s) <==> exists a, b, c, d, e :: AreGroups(s, a, b, c, d, e)
  {
    if IsUuidShaped(s) {
      UuidHasGroups(s);
    }
    if a, b, c, d, e :| AreGroups(s, a, b, c, d, e) {
      GroupsMakeUuid(s, a, b, c, d, e);
    }
  }

  function SlotKey(unit: string, tag: string): string { unit + "::" + tag }

  /** A key made of two UUID-shaped ids is made by no other pair of strings. */
  lemma SlotKeyIsInjective(unit: string, tag: string, unit': string, tag': string)
    requires IsUuidShaped(unit) && IsUuidShaped(tag)
    requires SlotKey(unit, tag) == SlotKey(unit', tag')
    ensures unit == unit' && tag == tag'
  {
    var key := SlotKey(unit, tag);
    assert key[|unit'|] == ':' && key[|unit'| + 1] == ':';
    assert forall i :: 0 <= i < 36 ==> key[i] == unit[i] && key[38 + i] == tag[i];
    assert |unit'| == 36;
    assert unit == key[..36] == unit';
    assert tag == key[38..] == tag';
  }

  function ToSlot(p: Payload, receivedAt: int): SlotValue {
    SlotValue(p.value, p.engineeringUnit, p.timestamp, p.ingestionTimestamp, receivedAt)
  }

  function IndexOf(tracked: seq<TrackedSlot>): set<string> {
    set s | s in tracked && IsUuidShaped(s.unit) && IsUuidShaped(s.tag) :: SlotKey(s.unit, s.tag)
  }

  // Whose readings the hook takes: the tenant and the slot index in force.
  datatype Scope = Scope(tenant: string, index: set<string>)

  // A payload, when it came, and the scope in force then. Slots outlive a change of scope.
  datatype Arrival = Arrival(payload: Payload, receivedAt: int, scope: Scope)

  predicate Accepted(scope: Scope, p: Payload) {
    p.tenant == scope.tenant && SlotKey(p.unit, p.tag) in scope.index
  }

  function Handle(slots: map<string, SlotValue>, a: Arrival): map<string, SlotValue> {
    var key := SlotKey(a.payload.unit, a.payload.tag);
    if !Accepted(a.scope, a.payload) then slots
    else if key in slots && slots[key].timestamp >= a.payload.timestamp then slots
    else slots[key := ToSlot(a.payload, a.receivedAt)]
  }

  class RealtimeHook {
    var tenant: string
    var slotIndex: set<string>
    var slots: map<string, SlotValue>
    var lastEventReceivedAt: Option<int>

    static method BuildIndex(tracked: seq<TrackedSlot>) returns (index: set<string>)
      ensures index == IndexOf(tracked)
    {
      index := {};
      for i := 0 to |tracked|
        invariant index == IndexOf(tracked[..i])
      {
        var s := tracked[i];
        assert tracked[..i + 1] == tracked[..i] + [s];
        if !IsUuidShaped(s.unit) || !IsUuidShaped(s.tag) {
          assert IndexOf(tracked[..i + 1]) == IndexOf(tracked[..i]);
          continue;
        }
        index := index + {SlotKey(s.unit, s.tag)};
        assert IndexOf(tracked[..i + 1]) == IndexOf(tracked[..i]) + {SlotKey(s.unit, s.tag)};
      }
      assert tracked[..|tracked|] == tracked;
    }

    constructor (tenant: string, tracked: seq<TrackedSlot>)
      ensures this.tenant == tenant && slots == map[] && lastEventReceivedAt == None
      ensures slotIndex == IndexOf(tracked)
    {
      this.tenant, slots, lastEventReceivedAt := tenant, map[], None;
      new;
      slotIndex := BuildIndex(tracked);
    }

    // Another tenant or other tracked pairs: the index is made anew, the slots stay.
    method Rescope(tenant: string, tracked: seq<TrackedSlot>)
      modifies `tenant, `slotIndex
      ensures this.tenant == tenant && slotIndex == IndexOf(tracked)
    {
      this.tenant := tenant;
      slotIndex := BuildIndex(tracked);
    }

    method HandleLiveReading(p: Payload, receivedAt: int)
      modifies `slots, `lastEventReceivedAt
      ensures slots == Handle(old(slots), Arrival(p, receivedAt, Scope(tenant, slotIndex)))
      ensures lastEventReceivedAt ==
              if Accepted(Scope(tenant, slotIndex), p) then Some(receivedAt) else old(lastEventReceivedAt)
    {
      if p.tenant != tenant {
        return;
      }
      var key := SlotKey(p.unit, p.tag);
      if key !in slotIndex {
        return;
      }
      if !(key in slots && slots[key].timestamp >= p.timestamp) {
        slots := slots[key := ToSlot(p, receivedAt)];
      }
      lastEventReceivedAt := Some(receivedAt);
    }
  }

  function HandleAll(arrivals: seq<Arrival>): map<string, SlotValue> {
    if arrivals == [] then map[]
    else Handle(HandleAll(arrivals[..|arrivals| - 1]), arrivals[|arrivals| - 1])
  }

  /** An accepted payload comes from a tracked slot, and its key stands for no other pair. */
  lemma AcceptedMeansTracked(tenant: string, tracked: seq<TrackedSlot>, p: Payload)
    ensures Accepted(Scope(tenant, IndexOf(tracked)), p) <==>
            && p.tenant == tenant && TrackedSlot(p.unit, p.tag) in tracked
            && IsUuidShaped(p.unit) && IsUuidShaped(p.tag)
  {
    if Accepted(Scope(tenant, IndexOf(tracked)), p) {
      var s :| && s in tracked && IsUuidShaped(s.unit) && IsUuidShaped(s.tag)
               && SlotKey(s.unit, s.tag) == SlotKey(p.unit, p.tag);
      SlotKeyIsInjective(s.unit, s.tag, p.unit, p.tag);
    } else if TrackedSlot(p.unit, p.tag) in tracked && IsUuidShaped(p.unit) && IsUuidShaped(p.tag) {
      var s := TrackedSlot(p.unit, p.tag);
      assert SlotKey(s.unit, s.tag) in IndexOf(tracked);
    }
  }

  // The arrival was accepted when it came, for the key.
  predicate IsFor(key: string, a: Arrival) {
    Accepted(a.scope, a.payload) && SlotKey(a.payload.unit, a.payload.tag) == key
  }

  // Arrival `w` has the greatest timestamp of its key, and had it first.
  ghost predicate IsWinner(key: string, arrivals: seq<Arrival>, w: int) {
    && 0 <= w < |arrivals| && IsFor(key, arrivals[w])
    && (forall i :: 0 <= i < |arrivals| && IsFor(key, arrivals[i]) ==>
          arrivals[i].payload.timestamp <= arrivals[w].payload.timestamp)
    && (forall i :: 0 <= i < w && IsFor(key, arrivals[i]) ==>
          arrivals[i].payload.timestamp < arrivals[w].payload.timestamp)
  }

  /** After any arrivals, under scopes that may change in between, a slot is filled exactly when something
      was accepted for it, and holds the payload with the greatest timestamp, the first received of equals. */
  lemma {:induction false} SlotHoldsWinner(key: string, arrivals: seq<Arrival>) returns (w: int)
    ensures var slots := HandleAll(arrivals);
            && (key in slots <==> exists i :: 0 <= i < |arrivals| && IsFor(key, arrivals[i]))
            && (key in slots ==>
                  && IsWinner(key, arrivals, w)
                  && slots[key].value == arrivals[w].payload.value
                  && slots[key].engineeringUnit == arrivals[w].payload.engineeringUnit
                  && slots[key].timestamp == arrivals[w].payload.timestamp
                  && slots[key].ingestionTimestamp == arrivals[w].payload.ingestionTimestamp
                  && slots[key].receivedAt == arrivals[w].receivedAt)
  {
    w := -1;
    if arrivals != [] {
      var n := |arrivals| - 1;
      var before, last := HandleAll(arrivals[..n]), arrivals[n];
      w := SlotHoldsWinner(key, arrivals[..n]);
      assert forall i :: 0 <= i < n ==> arrivals[..n][i] == arrivals[i];
      if IsFor(key, last) && !(key in before && before[key].timestamp >= last.payload.timestamp) {
        w := n;
      }
    }
  }

  // The parts of a slot that come from the payload.
  predicate SameReading(a: SlotValue, b: SlotValue) {
    a == b.(receivedAt := a.receivedAt)
  }

  predicate SameFeed(slots: map<string, SlotValue>, slots': map<string, SlotValue>) {
    slots.Keys == slots'.Keys && forall key :: key in slots ==> SameReading(slots[key], slots'[key])
  }

  function AcceptedPayloads(arrivals: seq<Arrival>): set<Payload> {
    set a | a in arrivals && Accepted(a.scope, a.payload) :: a.payload
  }

  // Different payloads of one slot have different timestamps.
  ghost predicate DistinctTimestamps(payloads: set<Payload>) {
    forall p, q | p in payloads && q in payloads
      :: SlotKey(p.unit, p.tag) == SlotKey(q.unit, q.tag) && p.timestamp == q.timestamp ==> p == q
  }

  lemma Find(arrival: Arrival, a: seq<Arrival>, b: seq<Arrival>) returns (j: int)
    requires arrival in a && Accepted(arrival.scope, arrival.payload) && AcceptedPayloads(a) == AcceptedPayloads(b)
    ensures 0 <= j < |b| && Accepted(b[j].scope, b[j].payload) && b[j].payload == arrival.payload
  {
    assert arrival.payload in AcceptedPayloads(b);
    var x :| x in b && Accepted(x.scope, x.payload) && x.payload == arrival.payload;
    j :| 0 <= j < |b| && b[j] == x;
  }

  // Same accepted payloads: what `a` leaves in a slot is what `b` leaves there.
  lemma SlotsHoldEachOther(key: string, a: seq<Arrival>, b: seq<Arrival>)
    requires AcceptedPayloads(a) == AcceptedPayloads(b) && DistinctTimestamps(AcceptedPayloads(a))
    ensures var x, y := HandleAll(a), HandleAll(b);
            key in x ==> key in y && SameReading(x[key], y[key])
  {
    var x, y := HandleAll(a), HandleAll(b);
    var v := SlotHoldsWinner(key, a);
    var w := SlotHoldsWinner(key, b);
    if key in x {
      var j := Find(a[v], a, b);
      assert IsFor(key, b[j]);
      var i := Find(b[w], b, a);
      assert IsFor(key, a[i]);
      assert a[v].payload in AcceptedPayloads(a) && b[w].payload in AcceptedPayloads(b);
    }
  }

  /** Whatever was rejected, reordering or duplicating the accepted payloads, timestamps distinct, changes
      nothing but the receipt time. */
  lemma SlotsConverge(a: seq<Arrival>, b: seq<Arrival>)
    requires AcceptedPayloads(a) == AcceptedPayloads(b) && DistinctTimestamps(AcceptedPayloads(a))
    ensures SameFeed(HandleAll(a), HandleAll(b))
  {
    var x, y := HandleAll(a), HandleAll(b);
    forall key
      ensures key in x ==> key in y && SameReading(x[key], y[key])
      ensures key in y ==> key in x
    {
      SlotsHoldEachOther(key, a, b);
      SlotsHoldEachOther(key, b, a);
    }
  }

  // -------------------------------------------------------------------------
  // The tile
  // -------------------------------------------------------------------------

  datatype RestValue = RestValue(value: Option<real>, engineeringUnit: string, timestamp: int)
  datatype Origin = Rest | Realtime
  datatype MergedTileValue = MergedTileValue(value: Option<real>, unit: string, timestamp: int, origin: Origin)

  function UnitOr(unit: string, fallback: string): string { if unit == "" then fallback else unit }

  // The unit shown is the value's own, the fallback only where that is empty.
  predicate IsUnitOf(shown: string, own: string, fallback: string) {
    (own != "" ==> shown == own) && (own == "" ==> shown == fallback)
  }

  function MergeApiTileValue(rest: Option<RestValue>, realtime: Option<SlotValue>, fallback: string)
    : Option<MergedTileValue>
  {
    if rest.None? && realtime.None? then None
    else if rest.Some? && realtime.Some? && realtime.value.timestamp > rest.value.timestamp then
      Some(MergedTileValue(realtime.value.value, UnitOr(realtime.value.engineeringUnit, fallback),
                           realtime.value.timestamp, Realtime))
    else if rest.Some? then
      Some(MergedTileValue(rest.value.value, UnitOr(rest.value.engineeringUnit, fallback), rest.value.timestamp, Rest))
    else
      Some(MergedTileValue(realtime.value.value, UnitOr(realtime.value.engineeringUnit, fallback),
                           realtime.value.timestamp, Realtime))
  }

  function Lookup(slots: map<string, SlotValue>, key: string): Option<SlotValue> {
    if key in slots then Some(slots[key]) else None
  }

  /** After any arrivals the tile shows the newest of the REST value and every accepted payload of its
      slot: REST on a tie, else the first received. */
  lemma TileShowsNewest(key: string, arrivals: seq<Arrival>, rest: Option<RestValue>, fallback: string)
    ensures var tile := MergeApiTileValue(rest, Lookup(HandleAll(arrivals), key), fallback);
            && (tile.None? <==> rest.None? && forall i :: 0 <= i < |arrivals| ==> !IsFor(key, arrivals[i]))
            && (tile.Some? ==>
                  && (forall i :: 0 <= i < |arrivals| && IsFor(key, arrivals[i]) ==>
                        arrivals[i].payload.timestamp <= tile.value.timestamp)
                  && (rest.Some? ==> rest.value.timestamp <= tile.value.timestamp)
                  && (tile.value.origin.Rest? <==> rest.Some? && rest.value.timestamp == tile.value.timestamp)
                  && (tile.value.origin.Rest? ==> tile.value.value == rest.value.value
                                                  && IsUnitOf(tile.value.unit, rest.value.engineeringUnit, fallback))
                  && (tile.value.origin.Realtime? ==>
                        exists w :: IsWinner(key, arrivals, w)
                                    && arrivals[w].payload.timestamp == tile.value.timestamp
                                    && arrivals[w].payload.value == tile.value.value
                                    && IsUnitOf(tile.value.unit, arrivals[w].payload.engineeringUnit, fallback)))
  {
    var w := SlotHoldsWinner(key, arrivals);
  }
}
