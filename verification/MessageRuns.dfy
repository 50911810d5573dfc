/**
 What the store makes of each kind of message, told by the messages themselves: a frame is its readings
 one by one, one reading extends one history, and the other kinds leave histories alone.
 */
module MessageRuns {
  import opened Prelude
  import opened RingBuffers
  import opened Telemetry
  import opened ListenerRegistry
  import opened TelemetryStores
  import opened Notifications
  import TagState

  // -------------------------------------------------------------------------
  // Histories and keys
  // -------------------------------------------------------------------------

  // One message for each reading, in order.
  function Singles(rs: seq<Reading>): seq<Message> {
    if rs == [] then [] else Singles(rs[..|rs| - 1]) + [ReadingMessage(rs[|rs| - 1])]
  }

  lemma LastOneOff<T>(a: seq<T>, b: seq<T>)
    requires b != []
    ensures a + b == a + b[..|b| - 1] + [b[|b| - 1]]
  {
  }

  lemma IngestOneMore(msgs: seq<Message>, msg: Message, capacity: nat)
    ensures IngestAll(msgs + [msg], capacity) == RecordAll(IngestAll(msgs, capacity), capacity, ReadingsOf(msg))
    ensures KeysOver(msgs + [msg]) == KeysAfter(KeysOver(msgs), ReadingsOf(msg))
  {
    assert (msgs + [msg])[..|msgs|] == msgs;
  }

  lemma IngestReading(msgs: seq<Message>, r: Reading, capacity: nat)
    ensures IngestAll(msgs + [ReadingMessage(r)], capacity) == Record(IngestAll(msgs, capacity), capacity, r)
    ensures KeysOver(msgs + [ReadingMessage(r)]) == WithKnown(KeysOver(msgs), KeyOf(r))
  {
    IngestOneMore(msgs, ReadingMessage(r), capacity);
    OneReading(IngestAll(msgs, capacity), capacity, EMPTY, EMPTY, KeysOver(msgs), r);
  }

  /** One more reading makes the history of its own key the last `capacity` of the old one and itself, makes
      the key known if it was not, at the end, and leaves every other key alone. */
  lemma OneMoreReadingMessage(msgs: seq<Message>, r: Reading, capacity: nat, other: string)
    ensures var key := r.job + "#" + r.tag;
            var h, h' := IngestAll(msgs, capacity), IngestAll(msgs + [ReadingMessage(r)], capacity);
            && key in h' && h'[key] == LastN(Kept(h, key) + [r], capacity)
            && (other != key ==> (other in h' <==> other in h) && Kept(h', other) == Kept(h, other))
            && KeysOver(msgs + [ReadingMessage(r)]) ==
               if key in KeysOver(msgs) then KeysOver(msgs) else KeysOver(msgs) + [key]
  {
    IngestReading(msgs, r, capacity);
  }

  /** Alarms, connection changes, heartbeats and snapshot updates change no history and make no key known. */
  lemma OtherKindsRecordNothing(msgs: seq<Message>, msg: Message, capacity: nat)
    requires !msg.ReadingMessage? && !msg.FrameMessage?
    ensures IngestAll(msgs + [msg], capacity) == IngestAll(msgs, capacity)
    ensures KeysOver(msgs + [msg]) == KeysOver(msgs)
  {
    IngestOneMore(msgs, msg, capacity);
  }

  lemma SinglesEnd(rs: seq<Reading>)
    requires rs != []
    ensures var all, before := Singles(rs), Singles(rs[..|rs| - 1]);
            all != [] && all[..|all| - 1] == before && all[|all| - 1] == ReadingMessage(rs[|rs| - 1])
  {
  }

  lemma {:induction false} SinglesRecord(msgs: seq<Message>, rs: seq<Reading>, capacity: nat)
    ensures IngestAll(msgs + Singles(rs), capacity) == RecordAll(IngestAll(msgs, capacity), capacity, rs)
    ensures KeysOver(msgs + Singles(rs)) == KeysAfter(KeysOver(msgs), rs)
  {
    if rs == [] {
      assert msgs + [] == msgs;
    } else {
      var before, r := rs[..|rs| - 1], rs[|rs| - 1];
      SinglesRecord(msgs, before, capacity);
      SinglesEnd(rs);
      LastOneOff(msgs, Singles(rs));
      IngestReading(msgs + Singles(before), r, capacity);
    }
  }

  lemma {:induction false} SameFromThere(a: seq<Message>, b: seq<Message>, after: seq<Message>, capacity: nat)
    requires IngestAll(a, capacity) == IngestAll(b, capacity) && KeysOver(a) == KeysOver(b)
    ensures IngestAll(a + after, capacity) == IngestAll(b + after, capacity)
    ensures KeysOver(a + after) == KeysOver(b + after)
  {
    if after == [] {
      assert a + after == a && b + after == b;
    } else {
      var n := |after| - 1;
      var x, y := a + after[..n], b + after[..n];
      SameFromThere(a, b, after[..n], capacity);
      LastOneOff(a, after);
      LastOneOff(b, after);
      IngestOneMore(x, after[n], capacity);
      IngestOneMore(y, after[n], capacity);
    }
  }

  /** A frame, anywhere in a run, records what its readings would one by one. */
  lemma FrameRecordsItsReadings(before: seq<Message>, job: string, rs: seq<Reading>, after: seq<Message>, capacity: nat)
    ensures IngestAll(before + [FrameMessage(job, rs)] + after, capacity) ==
            IngestAll(before + Singles(rs) + after, capacity)
    ensures KeysOver(before + [FrameMessage(job, rs)] + after) == KeysOver(before + Singles(rs) + after)
  {
    IngestOneMore(before, FrameMessage(job, rs), capacity);
    SinglesRecord(before, rs, capacity);
    SameFromThere(before + [FrameMessage(job, rs)], before + Singles(rs), after, capacity);
  }

  // -------------------------------------------------------------------------
  // Calls
  // -------------------------------------------------------------------------

  function Received(msgs: seq<Message>): seq<Event> {
    if msgs == [] then [] else Received(msgs[..|msgs| - 1]) + [Receive(msgs[|msgs| - 1])]
  }

  lemma RunOneMore(events: seq<Event>, e: Event)
    ensures RunEvents(events + [e]) == After(RunEvents(events), e)
  {
    assert (events + [e])[..|events|] == events;
  }

  /** Whom one message calls, in order: a reading or an alarm the open listeners of its tag, then those of its
      job, each in the order they subscribed; a connection message the connection's; the rest nobody. */
  lemma MessageCallsInOrder(events: seq<Event>, msg: Message)
    requires AllProper(events)
    ensures var before, after := RunEvents(events), RunEvents(events + [Receive(msg)]);
            && after.hub == before.hub
            && match msg
               case ReadingMessage(r) =>
                 after.fired == before.fired + (Open(before.hub.tags.active, r.job + "#" + r.tag)
                                                + Open(before.hub.jobs.active, r.job))
               case AlarmMessage(a) =>
                 after.fired == before.fired + (Open(before.hub.tags.active, a.job + "#" + a.tag)
                                                + Open(before.hub.jobs.active, a.job))
               case ConnectionMessage(_) => after.fired == before.fired + before.hub.conns
               case FrameMessage(_, rs) => rs == [] ==> after.fired == before.fired
               case _ => after.fired == before.fired
  {
    var hub := RunEvents(events).hub;
    CallsOverRunAreDue(events, 0);
    RunOneMore(events, Receive(msg));
    match msg {
      case ReadingMessage(r) =>
        OneReading(map[], 1, hub.tags.reg, hub.jobs.reg, [], r);
        assert Members(hub.tags.reg, KeyOf(r)) == Open(hub.tags.active, KeyOf(r));
        assert Members(hub.jobs.reg, r.job) == Open(hub.jobs.active, r.job);
      case AlarmMessage(a) =>
        assert Members(hub.tags.reg, TagKey(a.job, a.tag)) == Open(hub.tags.active, TagKey(a.job, a.tag));
        assert Members(hub.jobs.reg, a.job) == Open(hub.jobs.active, a.job);
      case _ =>
    }
  }

  lemma SingleCalls(events: seq<Event>, r: Reading)
    ensures var s := RunEvents(events);
            RunEvents(events + [Receive(ReadingMessage(r))]) ==
            State(s.hub, s.fired + Calls(s.hub.tags.reg, s.hub.jobs.reg, r.job, r.tag))
  {
    var s := RunEvents(events);
    RunOneMore(events, Receive(ReadingMessage(r)));
    OneReading(map[], 1, s.hub.tags.reg, s.hub.jobs.reg, [], r);
  }

  lemma {:induction false} SinglesCall(events: seq<Event>, rs: seq<Reading>)
    ensures var s, s' := RunEvents(events), RunEvents(events + Received(Singles(rs)));
            s' == State(s.hub, s.fired + CallsOfReadings(s.hub.tags.reg, s.hub.jobs.reg, rs))
  {
    var s := RunEvents(events);
    if rs == [] {
      assert events + [] == events && s.fired + [] == s.fired;
    } else {
      var before, r := rs[..|rs| - 1], rs[|rs| - 1];
      SinglesCall(events, before);
      SinglesEnd(rs);
      LastOneOff(events, Received(Singles(rs)));
      SingleCalls(events + Received(Singles(before)), r);
      Regroup(s.fired, CallsOfReadings(s.hub.tags.reg, s.hub.jobs.reg, before),
              Calls(s.hub.tags.reg, s.hub.jobs.reg, r.job, r.tag));
    }
  }

  lemma {:induction false} SameStateFromThere(a: seq<Event>, b: seq<Event>, after: seq<Event>)
    requires RunEvents(a) == RunEvents(b)
    ensures RunEvents(a + after) == RunEvents(b + after)
  {
    if after == [] {
      assert a + after == a && b + after == b;
    } else {
      var n := |after| - 1;
      var x, y := a + after[..n], b + after[..n];
      SameStateFromThere(a, b, after[..n]);
      LastOneOff(a, after);
      LastOneOff(b, after);
      RunOneMore(x, after[n]);
      RunOneMore(y, after[n]);
    }
  }

  /** A frame, anywhere in a run, makes the very calls its readings would one by one. */
  lemma FrameCallsAsItsReadings(before: seq<Event>, job: string, rs: seq<Reading>, after: seq<Event>)
    ensures RunEvents(before + [Receive(FrameMessage(job, rs))] + after) ==
            RunEvents(before + Received(Singles(rs)) + after)
  {
    RunOneMore(before, Receive(FrameMessage(job, rs)));
    SinglesCall(before, rs);
    SameStateFromThere(before + [Receive(FrameMessage(job, rs))], before + Received(Singles(rs)), after);
  }

  // -------------------------------------------------------------------------
  // What a tile reads
  // -------------------------------------------------------------------------

  /** After any run a card shows for every tag the last of the pair's own readings, as stale as that is. */
  lemma TileShowsLastReading(msgs: seq<Message>, capacity: nat, snapshot: Snapshot, job: string, nowMs: int,
                             byTag: map<string, TagState.TagView>, tag: string)
    requires capacity > 0 && '#' !in job && HashFree(Flatten(msgs)) && tag in byTag
    requires TagState.ShowsAll(byTag, snapshot.sensors, FeedOf(IngestAll(msgs, capacity)), snapshot, job, nowMs)
    ensures byTag[tag].reading == LastOf(OfPair(Flatten(msgs), job, tag))
    ensures byTag[tag].stale == TagState.ComputeStale(LastOf(OfPair(Flatten(msgs), job, tag)), tag, snapshot, nowMs)
  {
    TagState.LastMappingIsMember(snapshot.sensors, tag);
    LatestIsLastReading(msgs, capacity, job, tag);
  }
}
