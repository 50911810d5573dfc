/**
 The realtime store: one ring per tag key, the latest alarm per key, listener sets and the connection
 status. Listeners are numbered; `fired` is the trace of the calls made to them. A listener does not
 call back into the store.
 */
module TelemetryStores {
  import opened Prelude
  import opened RingBuffers
  import opened Telemetry
  import opened ListenerRegistry
  import TagState

  datatype AlarmEvent = AlarmEvent(job: string, tag: string, ts: Stamp, state: string, value: Option<real>,
                                   threshold: Option<real>)
  datatype CommunicationStatus =
    | ConnectedSince(since: Stamp) | Reconnecting(last: Option<Stamp>) | Disconnected(last: Option<Stamp>)

  datatype Message =
    | ReadingMessage(reading: Reading)
    | FrameMessage(job: string, readings: seq<Reading>)
    | AlarmMessage(alarm: AlarmEvent)
    | ConnectionMessage(status: CommunicationStatus)
    | Heartbeat(ts: Stamp)
    | SnapshotUpdate(snapshot: Snapshot)

  type Histories = map<string, seq<Reading>>

  function KeyOf(r: Reading): string { TagKey(r.job, r.tag) }

  function ReadingsOf(msg: Message): seq<Reading> {
    match msg
    case ReadingMessage(r) => [r]
    case FrameMessage(_, rs) => rs
    case _ => []
  }

  function Limit(capacity: int): nat { if capacity > 0 then capacity else 0 }

  function Record(h: Histories, capacity: nat, r: Reading): Histories {
    h[KeyOf(r) := LastN((if KeyOf(r) in h then h[KeyOf(r)] else []) + [r], capacity)]
  }

  function RecordAll(h: Histories, capacity: nat, rs: seq<Reading>): Histories {
    if rs == [] then h else Record(RecordAll(h, capacity, rs[..|rs| - 1]), capacity, rs[|rs| - 1])
  }

  function WithKnown(keys: seq<string>, key: string): seq<string> {
    if key in keys then keys else keys + [key]
  }

  // The keys known after `rs`: each new one goes to the end.
  function KeysAfter(keys: seq<string>, rs: seq<Reading>): seq<string> {
    if rs == [] then keys else WithKnown(KeysAfter(keys, rs[..|rs| - 1]), KeyOf(rs[|rs| - 1]))
  }

  // The tags with which the job makes one of the keys, in their order.
  function TagsUnder(keys: seq<string>, job: string): seq<string> {
    if keys == [] then []
    else
      var prefix, key := job + "#", keys[|keys| - 1];
      TagsUnder(keys[..|keys| - 1], job) + if prefix <= key then [key[|prefix|..]] else []
  }

  lemma KeyOfJobExactly(job: string, tag: string, key: string)
    ensures TagKey(job, tag) == key <==> job + "#" <= key && tag == key[|job + "#"|..]
  {
    assert TagKey(job, tag)[|job + "#"|..] == tag;
  }

  lemma {:induction false} TagsUnderExactly(keys: seq<string>, job: string)
    ensures forall tag :: tag in TagsUnder(keys, job) <==> TagKey(job, tag) in keys
  {
    if keys != [] {
      var n := |keys| - 1;
      TagsUnderExactly(keys[..n], job);
      assert keys == keys[..n] + [keys[n]];
      forall tag
        ensures TagKey(job, tag) == keys[n] <==> job + "#" <= keys[n] && tag == keys[n][|job + "#"|..]
      {
        KeyOfJobExactly(job, tag, keys[n]);
      }
    }
  }

  // The calls a reading or alarm of (job, tag) makes: the tag's listeners, then the job's.
  function Calls(tags: Registry, jobs: Registry, job: string, tag: string): seq<Listener> {
    Members(tags, TagKey(job, tag)) + Members(jobs, job)
  }

  function CallsOfReadings(tags: Registry, jobs: Registry, rs: seq<Reading>): seq<Listener> {
    if rs == [] then []
    else CallsOfReadings(tags, jobs, rs[..|rs| - 1]) + Calls(tags, jobs, rs[|rs| - 1].job, rs[|rs| - 1].tag)
  }

  function CallsOf(tags: Registry, jobs: Registry, conns: seq<Listener>, msg: Message): seq<Listener> {
    match msg
    case AlarmMessage(a) => Calls(tags, jobs, a.job, a.tag)
    case ConnectionMessage(_) => conns
    case _ => CallsOfReadings(tags, jobs, ReadingsOf(msg))
  }

  lemma OneMoreReading(h: Histories, capacity: nat, tags: Registry, jobs: Registry, rs: seq<Reading>, i: nat)
    requires i < |rs|
    ensures RecordAll(h, capacity, rs[..i + 1]) == Record(RecordAll(h, capacity, rs[..i]), capacity, rs[i])
    ensures CallsOfReadings(tags, jobs, rs[..i + 1]) ==
            CallsOfReadings(tags, jobs, rs[..i]) + Calls(tags, jobs, rs[i].job, rs[i].tag)
    ensures forall keys :: KeysAfter(keys, rs[..i + 1]) == WithKnown(KeysAfter(keys, rs[..i]), KeyOf(rs[i]))
  {
    assert rs[..i + 1][..i] == rs[..i];
  }

  lemma OneReading(h: Histories, capacity: nat, tags: Registry, jobs: Registry, keys: seq<string>, r: Reading)
    ensures RecordAll(h, capacity, [r]) == Record(h, capacity, r)
    ensures CallsOfReadings(tags, jobs, [r]) == Calls(tags, jobs, r.job, r.tag)
    ensures KeysAfter(keys, [r]) == WithKnown(keys, KeyOf(r))
  {
    assert [r][..0] == [];
  }

  lemma Regroup<T>(a: seq<T>, b: seq<T>, c: seq<T>)
    ensures (a + b) + c == a + (b + c)
  {
  }

  // The store's `rings` map, with the histories it stands for.
  class ReadingRings {
    const capacity: int
    var rings: map<string, RingBuffer<Reading>>
    var keys: seq<string> // the Map's insertion order
    ghost var histories: Histories
    ghost var Repr: set<object>

    ghost predicate Holds(ring: RingBuffer<Reading>, history: seq<Reading>)
      reads ring, ring.data
    {
      ring.Valid() && ring.capacity == capacity && ring.contents == history != []
    }

    ghost predicate Valid()
      reads this, Repr
      ensures Valid() ==> this in Repr
    {
      && this in Repr
      && (capacity <= 0 ==> rings == map[])
      && (forall k :: k in keys <==> k in rings)
      && histories.Keys == rings.Keys
      && (forall k :: k in rings ==> rings[k] in Repr && rings[k].data in Repr)
      && (forall k :: k in rings ==> Holds(rings[k], histories[k]))
      && (forall j, k :: j in rings && k in rings && rings[j].data == rings[k].data ==> j == k)
    }

    constructor (capacity: int)
      ensures Valid() && fresh(Repr) && histories == map[] && keys == [] && this.capacity == capacity
    {
      this.capacity := capacity;
      rings, keys, histories := map[], [], map[];
      Repr := {this};
    }

    method PushTo(key: string, r: Reading)
      requires Valid() && key in rings
      modifies `histories, rings[key], rings[key].data
      ensures Valid() && Repr == old(Repr)
      ensures histories == old(histories)[key := LastN(old(histories)[key] + [r], capacity)]
    {
      var ring := rings[key];
      ring.Push(r);
      assert Holds(ring, ring.contents);
      forall k | k in rings && k != key
        ensures Holds(rings[k], histories[k])
      {
        assert rings[k].data != ring.data;
        assert old(Holds(rings[k], histories[k]));
      }
      histories := histories[key := ring.contents];
    }

    method Add(key: string, ring: RingBuffer<Reading>)
      requires Valid() && key !in rings && capacity > 0
      requires ring.Valid() && ring.capacity == capacity && ring.contents != []
      requires ring !in Repr && ring.data !in Repr
      modifies this
      ensures Valid() && Repr == old(Repr) + {ring, ring.data} && keys == old(keys) + [key]
      ensures histories == old(histories)[key := ring.contents]
    {
      rings, keys := rings[key := ring], keys + [key];
      histories := histories[key := ring.contents];
      Repr := Repr + {ring, ring.data};
      forall k | k in rings
        ensures Holds(rings[k], histories[k]) && (k != key ==> rings[k].data != ring.data)
      {
        assert k != key ==> old(Holds(rings[k], histories[k]));
      }
    }

    // Throws when a ring has to be made and the capacity is not positive.
    method Append(key: string, r: Reading) returns (thrown: bool)
      requires Valid() && key == KeyOf(r)
      modifies Repr
      ensures Valid() && fresh(Repr - old(Repr))
      ensures thrown <==> capacity <= 0
      ensures histories == if thrown then old(histories) else Record(old(histories), Limit(capacity), r)
      ensures keys == if thrown then old(keys) else WithKnown(old(keys), key)
    {
      if key !in rings {
        var made := RingBuffer<Reading>.Create(capacity);
        if made.Err? {
          return true;
        }
        made.value.Push(r);
        assert made.value.contents == [r];
        Add(key, made.value);
      } else {
        PushTo(key, r);
      }
      return false;
    }
  }

  function FeedOf(h: Histories): Feed {
    map k | k in h && h[k] != [] :: h[k][|h[k]| - 1]
  }

  function Kept(h: Histories, key: string): seq<Reading> {
    if key in h then h[key] else []
  }

  class TelemetryStore {
    const rings: ReadingRings
    var latestAlarms: map<string, AlarmEvent>
    var tagListeners: Registry
    var jobListeners: Registry
    var connListeners: seq<Listener>
    var connectionStatus: CommunicationStatus
    var fired: seq<Listener>

    ghost predicate Valid()
      reads this, rings, rings.Repr
    {
      rings.Valid() && this !in rings.Repr
    }

    constructor (capacityPerTag: Option<int>)
      ensures Valid() && fresh(rings.Repr) && rings.histories == map[] && rings.keys == []
      ensures rings.capacity == capacityPerTag.GetOr(256)
      ensures latestAlarms == map[] && tagListeners == EMPTY && jobListeners == EMPTY && connListeners == []
      ensures connectionStatus == Disconnected(None) && fired == []
    {
      rings := new ReadingRings(capacityPerTag.GetOr(256));
      latestAlarms := map[];
      tagListeners, jobListeners, connListeners := EMPTY, EMPTY, [];
      connectionStatus := Disconnected(None);
      fired := [];
    }

    method NotifyTag(job: string, tag: string)
      modifies `fired
      ensures fired == old(fired) + Members(tagListeners, TagKey(job, tag))
    {
      var listeners := Members(tagListeners, TagKey(job, tag));
      for i := 0 to |listeners|
        invariant fired == old(fired) + listeners[..i]
      {
        fired := fired + [listeners[i]];
      }
    }

    method NotifyJob(job: string)
      modifies `fired
      ensures fired == old(fired) + Members(jobListeners, job)
    {
      var listeners := Members(jobListeners, job);
      for i := 0 to |listeners|
        invariant fired == old(fired) + listeners[..i]
      {
        fired := fired + [listeners[i]];
      }
    }

    method IngestReading(r: Reading) returns (thrown: bool)
      requires Valid()
      modifies `fired, rings.Repr
      ensures Valid() && fresh(rings.Repr - old(rings.Repr))
      ensures thrown <==> rings.capacity <= 0
      ensures thrown ==> rings.histories == old(rings.histories) && fired == old(fired)
      ensures !thrown ==> rings.histories == Record(old(rings.histories), Limit(rings.capacity), r)
      ensures rings.keys == if thrown then old(rings.keys) else WithKnown(old(rings.keys), KeyOf(r))
      ensures !thrown ==> fired == old(fired) + Calls(tagListeners, jobListeners, r.job, r.tag)
    {
      thrown := rings.Append(TagKey(r.job, r.tag), r);
      if thrown {
        return;
      }
      NotifyTag(r.job, r.tag);
      NotifyJob(r.job);
    }

    method IngestFrame(rs: seq<Reading>) returns (thrown: bool)
      requires Valid()
      modifies `fired, rings.Repr
      ensures Valid() && fresh(rings.Repr - old(rings.Repr))
      ensures thrown <==> rings.capacity <= 0 && rs != []
      ensures thrown ==> rings.histories == old(rings.histories) && fired == old(fired)
      ensures !thrown ==> rings.histories == RecordAll(old(rings.histories), Limit(rings.capacity), rs)
      ensures rings.keys == if thrown then old(rings.keys) else KeysAfter(old(rings.keys), rs)
      ensures !thrown ==> fired == old(fired) + CallsOfReadings(tagListeners, jobListeners, rs)
    {
      ghost var tags, jobs, made := tagListeners, jobListeners, [];
      for i := 0 to |rs|
        invariant Valid() && fresh(rings.Repr - old(rings.Repr))
        invariant i > 0 ==> rings.capacity > 0
        invariant rings.histories == RecordAll(old(rings.histories), Limit(rings.capacity), rs[..i])
        invariant rings.keys == KeysAfter(old(rings.keys), rs[..i])
        invariant fired == old(fired) + made && made == CallsOfReadings(tags, jobs, rs[..i])
      {
        OneMoreReading(old(rings.histories), Limit(rings.capacity), tags, jobs, rs, i);
        Regroup(old(fired), made, Calls(tags, jobs, rs[i].job, rs[i].tag));
        var failed := IngestReading(rs[i]);
        if failed {
          return true;
        }
        made := made + Calls(tags, jobs, rs[i].job, rs[i].tag);
      }
      assert rs[..|rs|] == rs;
      return false;
    }

    method NotifyConnection()
      modifies `fired
      ensures fired == old(fired) + connListeners
    {
      for i := 0 to |connListeners|
        invariant fired == old(fired) + connListeners[..i]
      {
        fired := fired + [connListeners[i]];
      }
    }

    method Ingest(msg: Message) returns (thrown: bool)
      requires Valid()
      modifies this, rings.Repr
      ensures Valid() && fresh(rings.Repr - old(rings.Repr))
      ensures thrown <==> rings.capacity <= 0 && ReadingsOf(msg) != []
      ensures thrown ==> rings.histories == old(rings.histories) && fired == old(fired)
      ensures !thrown ==> rings.histories == RecordAll(old(rings.histories), Limit(rings.capacity), ReadingsOf(msg))
      ensures rings.keys == if thrown then old(rings.keys) else KeysAfter(old(rings.keys), ReadingsOf(msg))
      ensures !thrown ==> fired == old(fired) + CallsOf(tagListeners, jobListeners, connListeners, msg)
      ensures latestAlarms ==
              if msg.AlarmMessage? then old(latestAlarms)[TagKey(msg.alarm.job, msg.alarm.tag) := msg.alarm]
              else old(latestAlarms)
      ensures connectionStatus == if msg.ConnectionMessage? then msg.status else old(connectionStatus)
      ensures unchanged(`tagListeners, `jobListeners, `connListeners)
    {
      match msg {
        case ReadingMessage(r) =>
          OneReading(rings.histories, Limit(rings.capacity), tagListeners, jobListeners, rings.keys, r);
          thrown := IngestReading(r);
        case FrameMessage(_, rs) =>
          thrown := IngestFrame(rs);
        case AlarmMessage(alarm) =>
          latestAlarms := latestAlarms[TagKey(alarm.job, alarm.tag) := alarm];
          NotifyTag(alarm.job, alarm.tag);
          NotifyJob(alarm.job);
          thrown := false;
        case ConnectionMessage(status) =>
          connectionStatus := status;
          NotifyConnection();
          thrown := false;
        case Heartbeat(_) =>
          thrown := false;
        case SnapshotUpdate(_) =>
          thrown := false;
      }
    }

    method GetLatestReading(job: string, tag: string) returns (r: Option<Reading>)
      requires Valid()
      ensures r == LatestReading(FeedOf(rings.histories), job, tag)
    {
      var key := TagKey(job, tag);
      if key !in rings.rings {
        return None;
      }
      r := rings.rings[key].Latest();
    }

    method GetHistory(job: string, tag: string) returns (out: seq<Reading>)
      requires Valid()
      ensures out == Kept(rings.histories, TagKey(job, tag))
    {
      var key := TagKey(job, tag);
      if key !in rings.rings {
        return [];
      }
      out := rings.rings[key].ToArray();
    }

    // The tags with which the job makes a known key, in the order the keys came.
    method KnownTagsForJob(job: string) returns (out: seq<string>)
      requires Valid()
      ensures out == TagsUnder(rings.keys, job)
      ensures forall tag :: tag in out <==> TagKey(job, tag) in rings.histories
    {
      var prefix := job + "#";
      var keys := rings.keys;
      out := [];
      for i := 0 to |keys|
        invariant out == TagsUnder(keys[..i], job)
      {
        var key := keys[i];
        assert keys[..i + 1][..i] == keys[..i];
        if !(prefix <= key) {
          continue;
        }
        out := out + [key[|prefix|..]];
      }
      assert keys[..|keys|] == keys;
      TagsUnderExactly(keys, job);
    }

    method SubscribeTag(job: string, tag: string, listener: Listener) returns (h: Handle)
      modifies `tagListeners
      ensures (tagListeners, h) == Subscribe(old(tagListeners), TagKey(job, tag), listener)
      ensures SetsFit(old(tagListeners)) ==>
                SetsFit(tagListeners) && Gains(old(tagListeners), tagListeners, TagKey(job, tag), listener, h)
    {
      var key, reg := TagKey(job, tag), tagListeners;
      if SetsFit(reg) {
        SubscribeEffect(reg, key, listener);
      }
      var id: nat;
      if key in reg.index && reg.index[key] in reg.sets {
        id := reg.index[key];
      } else {
        id := reg.next;
        reg := Registry(reg.index[key := id], reg.sets[id := []], id + 1);
      }
      tagListeners := reg.(sets := reg.sets[id := WithMember(reg.sets[id], listener)]);
      assert tagListeners.sets == old(tagListeners).sets[id := tagListeners.sets[id]] && [] + [listener] == [listener];
      return Handle(key, id, listener);
    }

    method SubscribeJob(job: string, listener: Listener) returns (h: Handle)
      modifies `jobListeners
      ensures (jobListeners, h) == Subscribe(old(jobListeners), job, listener)
      ensures SetsFit(old(jobListeners)) ==>
                SetsFit(jobListeners) && Gains(old(jobListeners), jobListeners, job, listener, h)
    {
      var key, reg := job, jobListeners;
      if SetsFit(reg) {
        SubscribeEffect(reg, key, listener);
      }
      var id: nat;
      if key in reg.index && reg.index[key] in reg.sets {
        id := reg.index[key];
      } else {
        id := reg.next;
        reg := Registry(reg.index[key := id], reg.sets[id := []], id + 1);
      }
      jobListeners := reg.(sets := reg.sets[id := WithMember(reg.sets[id], listener)]);
      assert jobListeners.sets == old(jobListeners).sets[id := jobListeners.sets[id]] && [] + [listener] == [listener];
      return Handle(key, id, listener);
    }

    method UnsubscribeTag(h: Handle)
      modifies `tagListeners
      ensures tagListeners == Unsubscribe(old(tagListeners), h)
      ensures SetsFit(old(tagListeners)) && IsCurrent(old(tagListeners), h) ==>
                SetsFit(tagListeners) && Loses(old(tagListeners), tagListeners, h)
    {
      var reg := tagListeners;
      if SetsFit(reg) && IsCurrent(reg, h) {
        UnsubscribeEffect(reg, h);
      }
      if h.setId !in reg.sets {
        return;
      }
      tagListeners := reg.(sets := reg.sets[h.setId := Without(reg.sets[h.setId], h.listener)]);
      if tagListeners.sets[h.setId] == [] {
        tagListeners := tagListeners.(index := tagListeners.index - {h.key});
      }
    }

    method UnsubscribeJob(h: Handle)
      modifies `jobListeners
      ensures jobListeners == Unsubscribe(old(jobListeners), h)
      ensures SetsFit(old(jobListeners)) && IsCurrent(old(jobListeners), h) ==>
                SetsFit(jobListeners) && Loses(old(jobListeners), jobListeners, h)
    {
      var reg := jobListeners;
      if SetsFit(reg) && IsCurrent(reg, h) {
        UnsubscribeEffect(reg, h);
      }
      if h.setId !in reg.sets {
        return;
      }
      jobListeners := reg.(sets := reg.sets[h.setId := Without(reg.sets[h.setId], h.listener)]);
      if jobListeners.sets[h.setId] == [] {
        jobListeners := jobListeners.(index := jobListeners.index - {h.key});
      }
    }

    method SubscribeConnection(listener: Listener)
      modifies `connListeners
      ensures connListeners == WithMember(old(connListeners), listener)
    {
      connListeners := WithMember(connListeners, listener);
    }

    method UnsubscribeConnection(listener: Listener)
      modifies `connListeners
      ensures connListeners == Without(old(connListeners), listener)
    {
      connListeners := Without(connListeners, listener);
    }
  }

  // -------------------------------------------------------------------------
  // Runs of ingest
  // -------------------------------------------------------------------------

  function Flatten(msgs: seq<Message>): seq<Reading> {
    if msgs == [] then [] else Flatten(msgs[..|msgs| - 1]) + ReadingsOf(msgs[|msgs| - 1])
  }

  // What `Ingest` makes of the histories over a whole run.
  function IngestAll(msgs: seq<Message>, capacity: nat): Histories {
    if msgs == [] then map[]
    else RecordAll(IngestAll(msgs[..|msgs| - 1], capacity), capacity, ReadingsOf(msgs[|msgs| - 1]))
  }

  function WithKey(rs: seq<Reading>, key: string): seq<Reading> {
    if rs == [] then []
    else WithKey(rs[..|rs| - 1], key) + if KeyOf(rs[|rs| - 1]) == key then [rs[|rs| - 1]] else []
  }

  function OfPair(rs: seq<Reading>, job: string, tag: string): seq<Reading> {
    if rs == [] then []
    else
      var r := rs[|rs| - 1];
      OfPair(rs[..|rs| - 1], job, tag) + if r.job == job && r.tag == tag then [r] else []
  }

  lemma {:induction false} WithKeyAppends(a: seq<Reading>, b: seq<Reading>, key: string)
    ensures WithKey(a + b, key) == WithKey(a, key) + WithKey(b, key)
  {
    if b == [] {
      assert a + b == a;
    } else {
      var before, r := b[..|b| - 1], b[|b| - 1];
      var last := if KeyOf(r) == key then [r] else [];
      WithKeyAppends(a, before, key);
      assert (a + b)[..|a + b| - 1] == a + before && (a + b)[|a + b| - 1] == r;
      assert WithKey(a + b, key) == WithKey(a + before, key) + last;
      Regroup(WithKey(a, key), WithKey(before, key), last);
    }
  }

  lemma {:induction false} RecordAllKeepsLastN(h: Histories, capacity: nat, rs: seq<Reading>, key: string)
    requires capacity > 0 && |Kept(h, key)| <= capacity
    ensures key in RecordAll(h, capacity, rs) <==> key in h || WithKey(rs, key) != []
    ensures Kept(RecordAll(h, capacity, rs), key) == LastN(Kept(h, key) + WithKey(rs, key), capacity)
  {
    if rs == [] {
      assert Kept(h, key) + [] == Kept(h, key);
    } else {
      var before, r := rs[..|rs| - 1], rs[|rs| - 1];
      RecordAllKeepsLastN(h, capacity, before, key);
      var all := Kept(h, key) + WithKey(before, key);
      if KeyOf(r) == key {
        LastNOfAppend(all, r, capacity);
        assert Kept(h, key) + WithKey(rs, key) == all + [r];
      } else {
        assert WithKey(rs, key) == WithKey(before, key);
      }
    }
  }

  lemma LastNTwice<T>(a: seq<T>, b: seq<T>, n: nat)
    ensures LastN(LastN(a, n) + b, n) == LastN(a + b, n)
  {
    if |a| > n {
      var cut := |a| - n;
      assert LastN(a, n) + b == (a + b)[cut..];
      if |b| > 0 {
        assert (a + b)[cut..][|b|..] == (a + b)[cut + |b|..];
      }
    }
  }

  lemma {:induction false} HistoryByKey(msgs: seq<Message>, capacity: nat, key: string)
    requires capacity > 0
    ensures key in IngestAll(msgs, capacity) <==> WithKey(Flatten(msgs), key) != []
    ensures Kept(IngestAll(msgs, capacity), key) == LastN(WithKey(Flatten(msgs), key), capacity)
  {
    if msgs != [] {
      var before, last := msgs[..|msgs| - 1], ReadingsOf(msgs[|msgs| - 1]);
      HistoryByKey(before, capacity, key);
      RecordAllKeepsLastN(IngestAll(before, capacity), capacity, last, key);
      WithKeyAppends(Flatten(before), last, key);
      LastNTwice(WithKey(Flatten(before), key), WithKey(last, key), capacity);
    }
  }

  ghost predicate HashFree(rs: seq<Reading>) {
    forall r :: r in rs ==> '#' !in r.job
  }

  lemma {:induction false} KeyMeansPair(rs: seq<Reading>, job: string, tag: string)
    requires '#' !in job && HashFree(rs)
    ensures WithKey(rs, TagKey(job, tag)) == OfPair(rs, job, tag)
  {
    if rs != [] {
      var r := rs[|rs| - 1];
      KeyMeansPair(rs[..|rs| - 1], job, tag);
      TagKeyIsInjective(job, tag, r.job, r.tag);
    }
  }

  function LastOf<T>(s: seq<T>): Option<T> {
    if s == [] then None else Some(s[|s| - 1])
  }

  lemma FeedHasLast(h: Histories, job: string, tag: string)
    ensures LatestReading(FeedOf(h), job, tag) == LastOf(Kept(h, TagKey(job, tag)))
  {
  }

  lemma LastOfLastN<T>(s: seq<T>, n: nat)
    requires n > 0
    ensures LastOf(LastN(s, n)) == LastOf(s)
  {
  }

  /** After any run of messages the history of a pair is the last `capacity` of its own readings, in order ... */
  lemma HistoryIsLastReadings(msgs: seq<Message>, capacity: nat, job: string, tag: string)
    requires capacity > 0
    requires '#' !in job && HashFree(Flatten(msgs))
    ensures Kept(IngestAll(msgs, capacity), TagKey(job, tag)) == LastN(OfPair(Flatten(msgs), job, tag), capacity)
  {
    HistoryByKey(msgs, capacity, TagKey(job, tag));
    KeyMeansPair(Flatten(msgs), job, tag);
  }

  /** ... and its latest reading is the last of them. */
  lemma LatestIsLastReading(msgs: seq<Message>, capacity: nat, job: string, tag: string)
    requires capacity > 0
    requires '#' !in job && HashFree(Flatten(msgs))
    ensures LatestReading(FeedOf(IngestAll(msgs, capacity)), job, tag) == LastOf(OfPair(Flatten(msgs), job, tag))
  {
    HistoryIsLastReadings(msgs, capacity, job, tag);
    FeedHasLast(IngestAll(msgs, capacity), job, tag);
    LastOfLastN(OfPair(Flatten(msgs), job, tag), capacity);
  }

  // A job's own tags, each where a reading of the job first brought it.
  function TagsSeen(rs: seq<Reading>, job: string): seq<string> {
    if rs == [] then []
    else
      var before, r := TagsSeen(rs[..|rs| - 1], job), rs[|rs| - 1];
      if r.job == job then WithKnown(before, r.tag) else before
  }

  lemma {:induction false} KeysAfterJoins(keys: seq<string>, a: seq<Reading>, b: seq<Reading>)
    ensures KeysAfter(keys, a + b) == KeysAfter(KeysAfter(keys, a), b)
  {
    if b == [] {
      assert a + b == a;
    } else {
      KeysAfterJoins(keys, a, b[..|b| - 1]);
      assert (a + b)[..|a + b| - 1] == a + b[..|b| - 1];
    }
  }

  // What `Ingest` makes of the known keys over a whole run.
  function KeysOver(msgs: seq<Message>): seq<string> {
    if msgs == [] then [] else KeysAfter(KeysOver(msgs[..|msgs| - 1]), ReadingsOf(msgs[|msgs| - 1]))
  }

  lemma {:induction false} KeysOverIsFlat(msgs: seq<Message>)
    ensures KeysOver(msgs) == KeysAfter([], Flatten(msgs))
  {
    if msgs != [] {
      KeysOverIsFlat(msgs[..|msgs| - 1]);
      KeysAfterJoins([], Flatten(msgs[..|msgs| - 1]), ReadingsOf(msgs[|msgs| - 1]));
    }
  }

  lemma TagsUnderOneMore(keys: seq<string>, r: Reading, job: string)
    requires '#' !in job && '#' !in r.job
    ensures TagsUnder(WithKnown(keys, KeyOf(r)), job) ==
            if r.job == job then WithKnown(TagsUnder(keys, job), r.tag) else TagsUnder(keys, job)
  {
    var key := KeyOf(r);
    TagsUnderExactly(keys, job);
    KeyOfJobExactly(job, r.tag, key);
    TagKeyIsInjective(job, r.tag, r.job, r.tag);
    if key !in keys {
      assert (keys + [key])[..|keys|] == keys;
      if job + "#" <= key {
        var tag := key[|job + "#"|..];
        KeyOfJobExactly(job, tag, key);
        TagKeyIsInjective(job, tag, r.job, r.tag);
      }
    }
  }

  lemma {:induction false} TagsUnderAreSeen(rs: seq<Reading>, job: string)
    requires '#' !in job && HashFree(rs)
    ensures TagsUnder(KeysAfter([], rs), job) == TagsSeen(rs, job)
  {
    if rs != [] {
      var n := |rs| - 1;
      TagsUnderAreSeen(rs[..n], job);
      TagsUnderOneMore(KeysAfter([], rs[..n]), rs[n], job);
    }
  }

  /** After any run of messages the known tags of a job are its own, each once, in the order in which
      readings of the job first brought them. */
  lemma KnownTagsAreThoseSeen(msgs: seq<Message>, job: string)
    requires '#' !in job && HashFree(Flatten(msgs))
    ensures TagsUnder(KeysOver(msgs), job) == TagsSeen(Flatten(msgs), job)
  {
    KeysOverIsFlat(msgs);
    TagsUnderAreSeen(Flatten(msgs), job);
  }

  lemma {:induction false} WithKeyHasKey(rs: seq<Reading>, key: string)
    ensures forall r :: r in WithKey(rs, key) ==> r in rs && KeyOf(r) == key
  {
    if rs != [] {
      WithKeyHasKey(rs[..|rs| - 1], key);
    }
  }

  /** So the feed the selectors read is coherent after any run with '#'-free job ids. */
  lemma StoreFeedIsCoherent(msgs: seq<Message>, capacity: nat)
    requires capacity > 0 && HashFree(Flatten(msgs))
    ensures TagState.Coherent(FeedOf(IngestAll(msgs, capacity)))
  {
    var h := IngestAll(msgs, capacity);
    forall key | key in FeedOf(h)
      ensures key == KeyOf(FeedOf(h)[key]) && '#' !in FeedOf(h)[key].job
    {
      HistoryByKey(msgs, capacity, key);
      WithKeyHasKey(Flatten(msgs), key);
      assert FeedOf(h)[key] in WithKey(Flatten(msgs), key);
    }
  }
}
