/**
 Who is called, how often: whole runs of subscriptions of all three kinds and messages, interleaved in
 any way. A listener is called once per open subscription of it and reading or alarm that subscription
 is about, and otherwise never.
 */
module Notifications {
  import opened Telemetry
  import opened ListenerRegistry
  import opened TelemetryStores

  // The store's three listener sets, with the subscriptions still open.
  datatype Hub = Hub(tags: World, jobs: World, conns: seq<Listener>)

  datatype Event =
    | OnTags(op: Op) | OnJobs(op: Op)
    | SubConnection(listener: Listener) | UnsubConnection(listener: Listener)
    | Receive(msg: Message)

  // `fired` is the trace of calls, as the store keeps it. A message here is one whose ingest does not throw.
  datatype State = State(hub: Hub, fired: seq<Listener>)

  const IDLE := State(Hub(World(EMPTY, []), World(EMPTY, []), []), [])

  function After(s: State, e: Event): State {
    match e
    case OnTags(op) => s.(hub := s.hub.(tags := Apply(s.hub.tags, op)))
    case OnJobs(op) => s.(hub := s.hub.(jobs := Apply(s.hub.jobs, op)))
    case SubConnection(l) => s.(hub := s.hub.(conns := WithMember(s.hub.conns, l)))
    case UnsubConnection(l) => s.(hub := s.hub.(conns := Without(s.hub.conns, l)))
    case Receive(msg) => s.(fired := s.fired + CallsOf(s.hub.tags.reg, s.hub.jobs.reg, s.hub.conns, msg))
  }

  function RunEvents(events: seq<Event>): State {
    if events == [] then IDLE else After(RunEvents(events[..|events| - 1]), events[|events| - 1])
  }

  // Tag and job subscriptions are disciplined; connection subscriptions and messages need not be.
  predicate Proper(s: State, e: Event) {
    match e
    case OnTags(op) => Disciplined(s.hub.tags, op)
    case OnJobs(op) => Disciplined(s.hub.jobs, op)
    case _ => true
  }

  predicate AllProper(events: seq<Event>) {
    events == [] || (AllProper(events[..|events| - 1])
                     && Proper(RunEvents(events[..|events| - 1]), events[|events| - 1]))
  }

  // -------------------------------------------------------------------------
  // What is due
  // -------------------------------------------------------------------------

  function KeysOf(rs: seq<Reading>): seq<string> {
    if rs == [] then [] else KeysOf(rs[..|rs| - 1]) + [KeyOf(rs[|rs| - 1])]
  }

  function JobsOf(rs: seq<Reading>): seq<string> {
    if rs == [] then [] else JobsOf(rs[..|rs| - 1]) + [rs[|rs| - 1].job]
  }

  // The tag keys and the jobs a message is about, one for each reading or alarm in it.
  function TagKeysOf(msg: Message): seq<string> {
    if msg.AlarmMessage? then [TagKey(msg.alarm.job, msg.alarm.tag)] else KeysOf(ReadingsOf(msg))
  }

  function JobIdsOf(msg: Message): seq<string> {
    if msg.AlarmMessage? then [msg.alarm.job] else JobsOf(ReadingsOf(msg))
  }

  // For each open subscription of `l`, how often its key is among `keys`.
  function Owed(active: seq<Handle>, keys: seq<string>, l: Listener): nat {
    if active == [] then 0
    else Owed(active[1..], keys, l) + if active[0].listener == l then multiset(keys)[active[0].key] else 0
  }

  function Due(hub: Hub, msg: Message, l: Listener): nat {
    Owed(hub.tags.active, TagKeysOf(msg), l) + Owed(hub.jobs.active, JobIdsOf(msg), l)
    + if msg.ConnectionMessage? && l in hub.conns then 1 else 0
  }

  // Over a whole run: what each message owed the subscriptions open when it came.
  function DueOver(events: seq<Event>, l: Listener): nat {
    if events == [] then 0
    else
      var before, e := events[..|events| - 1], events[|events| - 1];
      DueOver(before, l) + if e.Receive? then Due(RunEvents(before).hub, e.msg, l) else 0
  }

  // -------------------------------------------------------------------------
  // Calls are what is due
  // -------------------------------------------------------------------------

  ghost predicate HubKept(hub: Hub) {
    WellKept(hub.tags) && WellKept(hub.jobs) && forall l :: multiset(hub.conns)[l] <= 1
  }

  lemma {:induction false} OwedByNoKeys(active: seq<Handle>, l: Listener)
    ensures Owed(active, [], l) == 0
  {
    if active != [] {
      OwedByNoKeys(active[1..], l);
    }
  }

  // One more key owes what is open under it.
  lemma {:induction false} OwedGrows(active: seq<Handle>, keys: seq<string>, key: string, l: Listener)
    ensures Owed(active, keys + [key], l) == Owed(active, keys, l) + multiset(Open(active, key))[l]
  {
    if active != [] {
      OwedGrows(active[1..], keys, key, l);
    }
  }

  lemma CallsOfPair(hub: Hub, job: string, tag: string, l: Listener)
    requires HubKept(hub)
    ensures multiset(Calls(hub.tags.reg, hub.jobs.reg, job, tag))[l] ==
            multiset(Open(hub.tags.active, TagKey(job, tag)))[l] + multiset(Open(hub.jobs.active, job))[l]
  {
    assert Members(hub.tags.reg, TagKey(job, tag)) == Open(hub.tags.active, TagKey(job, tag));
    assert Members(hub.jobs.reg, job) == Open(hub.jobs.active, job);
  }

  lemma {:induction false} CallsOfReadingsAreDue(hub: Hub, rs: seq<Reading>, l: Listener)
    requires HubKept(hub)
    ensures multiset(CallsOfReadings(hub.tags.reg, hub.jobs.reg, rs))[l] ==
            Owed(hub.tags.active, KeysOf(rs), l) + Owed(hub.jobs.active, JobsOf(rs), l)
  {
    if rs == [] {
      OwedByNoKeys(hub.tags.active, l);
      OwedByNoKeys(hub.jobs.active, l);
    } else {
      var before, r := rs[..|rs| - 1], rs[|rs| - 1];
      CallsOfReadingsAreDue(hub, before, l);
      CallsOfPair(hub, r.job, r.tag, l);
      OwedGrows(hub.tags.active, KeysOf(before), KeyOf(r), l);
      OwedGrows(hub.jobs.active, JobsOf(before), r.job, l);
    }
  }

  lemma OwedForOneKey(active: seq<Handle>, key: string, l: Listener)
    ensures Owed(active, [key], l) == multiset(Open(active, key))[l]
  {
    OwedByNoKeys(active, l);
    OwedGrows(active, [], key, l);
    assert [] + [key] == [key];
  }

  lemma CallsAreDue(hub: Hub, msg: Message, l: Listener)
    requires HubKept(hub)
    ensures multiset(CallsOf(hub.tags.reg, hub.jobs.reg, hub.conns, msg))[l] == Due(hub, msg, l)
  {
    if msg.AlarmMessage? {
      CallsOfPair(hub, msg.alarm.job, msg.alarm.tag, l);
      OwedForOneKey(hub.tags.active, TagKey(msg.alarm.job, msg.alarm.tag), l);
      OwedForOneKey(hub.jobs.active, msg.alarm.job, l);
    } else {
      CallsOfReadingsAreDue(hub, ReadingsOf(msg), l);
    }
  }

  lemma {:induction false} WithoutCounts(s: seq<Listener>, l: Listener, x: Listener)
    ensures multiset(Without(s, l))[x] == if x == l then 0 else multiset(s)[x]
  {
    if s != [] {
      assert s == [s[0]] + s[1..];
      WithoutCounts(s[1..], l, x);
    }
  }

  lemma AfterKeeps(s: State, e: Event)
    requires HubKept(s.hub) && Proper(s, e)
    ensures HubKept(After(s, e).hub)
  {
    match e {
      case OnTags(op) => ApplyKeeps(s.hub.tags, op);
      case OnJobs(op) => ApplyKeeps(s.hub.jobs, op);
      case SubConnection(l) =>
      case UnsubConnection(l) =>
        forall x ensures multiset(Without(s.hub.conns, l))[x] <= 1 {
          WithoutCounts(s.hub.conns, l, x);
        }
      case Receive(_) =>
    }
  }

  /** In every run, however subscriptions of the three kinds and messages are interleaved and whoever shares
      a listener: the number of calls a listener has had is what the messages owed it. */
  lemma {:induction false} CallsOverRunAreDue(events: seq<Event>, l: Listener)
    requires AllProper(events)
    ensures HubKept(RunEvents(events).hub)
    ensures multiset(RunEvents(events).fired)[l] == DueOver(events, l)
  {
    if events != [] {
      var before, e := events[..|events| - 1], events[|events| - 1];
      CallsOverRunAreDue(before, l);
      AfterKeeps(RunEvents(before), e);
      if e.Receive? {
        CallsAreDue(RunEvents(before).hub, e.msg, l);
      }
    }
  }

  // Subscribed by event i, and not unsubscribed since.
  ghost predicate OpenSince(events: seq<Event>, l: Listener, i: int) {
    && 0 <= i < |events| && events[i] == SubConnection(l)
    && forall j :: i < j < |events| ==> events[j] != UnsubConnection(l)
  }

  ghost predicate ConnectionIsOpen(events: seq<Event>, l: Listener) {
    exists i :: OpenSince(events, l, i)
  }

  lemma ConnectionOneMore(before: seq<Event>, e: Event, l: Listener)
    ensures ConnectionIsOpen(before + [e], l) <==>
            e == SubConnection(l) || (e != UnsubConnection(l) && ConnectionIsOpen(before, l))
  {
    var events, n := before + [e], |before|;
    assert forall j :: 0 <= j < n ==> before[j] == events[j];
    if e == SubConnection(l) {
      assert OpenSince(events, l, n);
    } else if i :| OpenSince(before, l, i) && e != UnsubConnection(l) {
      assert OpenSince(events, l, i);
    }
    if i :| OpenSince(events, l, i) && i < n {
      assert OpenSince(before, l, i) && events[n] == e;
    }
  }

  /** A connection listener is in the store's set exactly while it is subscribed. */
  lemma {:induction false} ConnectionOpenExactly(events: seq<Event>, l: Listener)
    ensures l in RunEvents(events).hub.conns <==> ConnectionIsOpen(events, l)
  {
    if events != [] {
      var before, e := events[..|events| - 1], events[|events| - 1];
      ConnectionOpenExactly(before, l);
      ConnectionOneMore(before, e, l);
      assert events == before + [e];
    }
  }

  // -------------------------------------------------------------------------
  // One listener, one subscription
  // -------------------------------------------------------------------------

  predicate IsOpen(active: seq<Handle>, l: Listener) {
    exists h :: h in active && h.listener == l
  }

  // `h` is open, and the one subscription of its listener.
  predicate OnlyOpen(active: seq<Handle>, h: Handle) {
    h in active && forall x :: x in active && x.listener == h.listener ==> x == h
  }

  lemma {:induction false} OwedToNobody(active: seq<Handle>, keys: seq<string>, l: Listener)
    requires !IsOpen(active, l)
    ensures Owed(active, keys, l) == 0
  {
    if active != [] {
      assert active[0] in active;
      OwedToNobody(active[1..], keys, l);
    }
  }

  lemma {:induction false} OwedToOne(active: seq<Handle>, keys: seq<string>, h: Handle)
    requires DistinctSubscriptions(active) && OnlyOpen(active, h)
    ensures Owed(active, keys, h.listener) == multiset(keys)[h.key]
  {
    if active[0] == h {
      OwedToNobody(active[1..], keys, h.listener);
    } else {
      OwedToOne(active[1..], keys, h);
    }
  }

  lemma OwedIs(active: seq<Handle>, keys: seq<string>, l: Listener)
    requires DistinctSubscriptions(active)
    ensures !IsOpen(active, l) ==> Owed(active, keys, l) == 0
    ensures forall h :: OnlyOpen(active, h) && h.listener == l ==> Owed(active, keys, l) == multiset(keys)[h.key]
  {
    if !IsOpen(active, l) {
      OwedToNobody(active, keys, l);
    }
    forall h | OnlyOpen(active, h) && h.listener == l
      ensures Owed(active, keys, l) == multiset(keys)[h.key]
    {
      OwedToOne(active, keys, h);
    }
  }

  /** After any run, what the next message does. A listener subscribed to one job alone is called once per
      reading or alarm of that job - k times for a frame of k of them - one subscribed to one tag alone once
      per reading or alarm of its key, one subscribed to the connection alone once per connection message,
      and one without an open subscription never. */
  lemma FiringsAreExact(events: seq<Event>, msg: Message, l: Listener)
    requires AllProper(events)
    ensures var hub := RunEvents(events).hub;
            var calls := multiset(CallsOf(hub.tags.reg, hub.jobs.reg, hub.conns, msg))[l];
            var tag, job, conn := IsOpen(hub.tags.active, l), IsOpen(hub.jobs.active, l), l in hub.conns;
            && (!job && !conn ==> forall h :: OnlyOpen(hub.tags.active, h) && h.listener == l ==>
                                                calls == multiset(TagKeysOf(msg))[h.key])
            && (!tag && !conn ==> forall h :: OnlyOpen(hub.jobs.active, h) && h.listener == l ==>
                                                calls == multiset(JobIdsOf(msg))[h.key])
            && (!tag && !job && conn ==> calls == if msg.ConnectionMessage? then 1 else 0)
            && (!tag && !job && !conn ==> calls == 0)
  {
    CallsOverRunAreDue(events, l);
    var hub := RunEvents(events).hub;
    CallsAreDue(hub, msg, l);
    OwedIs(hub.tags.active, TagKeysOf(msg), l);
    OwedIs(hub.jobs.active, JobIdsOf(msg), l);
  }
}
