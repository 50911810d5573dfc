/**
 Keyed listener sets with unsubscribe handles. A handle remembers the very set object its listener
 was added to, so sets have identities here: `index` maps a key to a set id, `sets` a set id to its
 members in insertion order.
 */
module ListenerRegistry {
  type Listener = nat

  datatype Handle = Handle(key: string, setId: nat, listener: Listener)

  datatype Registry = Registry(index: map<string, nat>, sets: map<nat, seq<Listener>>, next: nat)

  const EMPTY := Registry(map[], map[], 0)

  function Without(s: seq<Listener>, l: Listener): (r: seq<Listener>)
    ensures forall x :: x in r <==> x in s && x != l
    ensures l !in s ==> r == s
  {
    if s == [] then []
    else if s[0] == l then Without(s[1..], l)
    else [s[0]] + Without(s[1..], l)
  }

  // Adding a member that is already there keeps its place.
  function WithMember(s: seq<Listener>, l: Listener): seq<Listener> {
    if l in s then s else s + [l]
  }

  // What `notify` walks over for a key.
  function Members(reg: Registry, key: string): seq<Listener> {
    if key in reg.index && reg.index[key] in reg.sets then reg.sets[reg.index[key]] else []
  }

  function Subscribe(reg: Registry, key: string, l: Listener): (Registry, Handle) {
    if key in reg.index && reg.index[key] in reg.sets then
      var id := reg.index[key];
      (reg.(sets := reg.sets[id := WithMember(reg.sets[id], l)]), Handle(key, id, l))
    else
      (Registry(reg.index[key := reg.next], reg.sets[reg.next := [l]], reg.next + 1), Handle(key, reg.next, l))
  }

  // The closure a subscription returns: delete from *its* set; if that is now empty, drop the *key*.
  function Unsubscribe(reg: Registry, h: Handle): Registry {
    if h.setId !in reg.sets then reg
    else
      var rest := Without(reg.sets[h.setId], h.listener);
      Registry(if rest == [] then reg.index - {h.key} else reg.index, reg.sets[h.setId := rest], reg.next)
  }

  // -------------------------------------------------------------------------
  // Disciplined use: no listener twice under one key, each handle used at most once
  // -------------------------------------------------------------------------

  datatype Op = Sub(key: string, listener: Listener) | Unsub(handle: Handle)

  // `active` lists the handles of the subscriptions still open, oldest first.
  datatype World = World(reg: Registry, active: seq<Handle>)

  function Drop(active: seq<Handle>, h: Handle): seq<Handle> {
    if active == [] then []
    else if active[0] == h then active[1..]
    else [active[0]] + Drop(active[1..], h)
  }

  function Apply(w: World, op: Op): World {
    match op
    case Sub(key, l) => var (reg, h) := Subscribe(w.reg, key, l); World(reg, w.active + [h])
    case Unsub(h) => World(Unsubscribe(w.reg, h), Drop(w.active, h))
  }

  predicate Disciplined(w: World, op: Op) {
    match op
    case Sub(key, l) => forall h :: h in w.active && h.key == key ==> h.listener != l
    case Unsub(h) => h in w.active
  }

  function RunOps(ops: seq<Op>): World {
    if ops == [] then World(EMPTY, []) else Apply(RunOps(ops[..|ops| - 1]), ops[|ops| - 1])
  }

  ghost predicate AllDisciplined(ops: seq<Op>) {
    forall i :: 0 <= i < |ops| ==> Disciplined(RunOps(ops[..i]), ops[i])
  }

  // The listeners of the open subscriptions of a key, in order.
  function Open(active: seq<Handle>, key: string): seq<Listener> {
    if active == [] then []
    else (if active[0].key == key then [active[0].listener] else []) + Open(active[1..], key)
  }

  // Each key has its own, inhabited set.
  ghost predicate SetsFit(reg: Registry) {
    && (forall key :: key in reg.index ==> reg.index[key] in reg.sets && reg.sets[reg.index[key]] != [])
    && (forall a, b :: a in reg.index && b in reg.index && reg.index[a] == reg.index[b] ==> a == b)
    && (forall id :: id in reg.sets ==> id < reg.next)
  }

  // A listener may be open under many keys, but only once under each.
  ghost predicate DistinctSubscriptions(active: seq<Handle>) {
    forall i, j :: 0 <= i < j < |active| && active[i].key == active[j].key ==> active[i].listener != active[j].listener
  }

  ghost predicate Mirrors(reg: Registry, active: seq<Handle>) {
    forall key :: Members(reg, key) == Open(active, key)
  }

  // The handle's key still has the set the handle was made for.
  predicate IsCurrent(reg: Registry, h: Handle) { h.key in reg.index && reg.index[h.key] == h.setId }

  ghost predicate HandlesFit(reg: Registry, active: seq<Handle>) {
    forall h :: h in active ==> IsCurrent(reg, h)
  }

  ghost predicate WellKept(w: World) {
    SetsFit(w.reg) && DistinctSubscriptions(w.active) && Mirrors(w.reg, w.active) && HandlesFit(w.reg, w.active)
  }

  lemma {:induction false} OpenAppends(active: seq<Handle>, h: Handle, key: string)
    ensures Open(active + [h], key) == Open(active, key) + if h.key == key then [h.listener] else []
  {
    if active == [] {
      assert active + [h] == [h];
    } else {
      OpenAppends(active[1..], h, key);
      assert (active + [h])[1..] == active[1..] + [h];
    }
  }

  lemma {:induction false} OpenMembers(active: seq<Handle>, key: string, l: Listener)
    ensures l in Open(active, key) <==> exists h :: h in active && h.key == key && h.listener == l
  {
    if active != [] {
      OpenMembers(active[1..], key, l);
      assert active == [active[0]] + active[1..];
    }
  }

  lemma {:induction false} DropIsRemoval(active: seq<Handle>, h: Handle) returns (i: nat)
    requires h in active
    ensures i < |active| && active[i] == h && Drop(active, h) == active[..i] + active[i + 1..]
  {
    if active[0] == h {
      i := 0;
    } else {
      i := DropIsRemoval(active[1..], h);
      i := i + 1;
    }
  }

  lemma DropKeeps(active: seq<Handle>, h: Handle)
    requires h in active && DistinctSubscriptions(active)
    ensures DistinctSubscriptions(Drop(active, h))
    ensures forall x :: x in Drop(active, h) ==> x in active
  {
    var i := DropIsRemoval(active, h);
  }

  lemma WithoutSkips(mine: seq<Listener>, rest: seq<Listener>, l: Listener)
    requires |mine| <= 1 && l !in mine
    ensures Without(mine + rest, l) == mine + Without(rest, l)
  {
    if mine == [] {
      assert mine + rest == rest;
    } else {
      assert (mine + rest)[1..] == rest;
    }
  }

  lemma OtherSubscription(active: seq<Handle>, h: Handle)
    requires h in active && DistinctSubscriptions(active) && active[0] != h
    ensures h in active[1..] && DistinctSubscriptions(active[1..])
    ensures active[0].key == h.key ==> active[0].listener != h.listener
  {
    var i :| 0 <= i < |active| && active[i] == h;
  }

  lemma {:induction false} OpenDrops(active: seq<Handle>, h: Handle, key: string)
    requires h in active && DistinctSubscriptions(active)
    ensures Open(Drop(active, h), key) ==
            if h.key == key then Without(Open(active, key), h.listener) else Open(active, key)
  {
    var first, rest := active[0], active[1..];
    if first == h {
      OpenMembers(rest, key, h.listener);
    } else {
      OtherSubscription(active, h);
      OpenDrops(rest, h, key);
      assert Drop(active, h) == [first] + Drop(rest, h);
      if h.key == key {
        WithoutSkips(if first.key == key then [first.listener] else [], Open(rest, key), h.listener);
      }
    }
  }

  // `h` is the handle of a subscription that took `before` to `after`: the key gains its listener.
  ghost predicate Gains(before: Registry, after: Registry, key: string, l: Listener, h: Handle) {
    && h.key == key && h.listener == l && IsCurrent(after, h)
    && forall k :: Members(after, k) == if k == key then WithMember(Members(before, k), l) else Members(before, k)
  }

  // The key of `h` loses its listener.
  ghost predicate Loses(before: Registry, after: Registry, h: Handle) {
    forall k :: Members(after, k) == if k == h.key then Without(Members(before, k), h.listener) else Members(before, k)
  }

  lemma SubscribeFits(reg: Registry, key: string, l: Listener)
    requires SetsFit(reg)
    ensures var (after, h) := Subscribe(reg, key, l);
            && SetsFit(after) && (forall k :: k in reg.index ==> k in after.index && after.index[k] == reg.index[k])
  {
  }

  lemma SubscribeGains(reg: Registry, key: string, l: Listener)
    requires SetsFit(reg)
    ensures var (after, h) := Subscribe(reg, key, l); Gains(reg, after, key, l, h)
  {
  }

  lemma SubscribeEffect(reg: Registry, key: string, l: Listener)
    requires SetsFit(reg)
    ensures var (after, h) := Subscribe(reg, key, l);
            && SetsFit(after) && Gains(reg, after, key, l, h)
            && (forall k :: k in reg.index ==> k in after.index && after.index[k] == reg.index[k])
  {
    SubscribeFits(reg, key, l);
    SubscribeGains(reg, key, l);
  }

  lemma SubscribeMirrors(reg: Registry, after: Registry, active: seq<Handle>, h: Handle)
    requires Mirrors(reg, active) && Gains(reg, after, h.key, h.listener, h)
    requires h.listener !in Open(active, h.key)
    ensures Mirrors(after, active + [h])
  {
    forall k
      ensures Members(after, k) == Open(active + [h], k)
    {
      assert Members(reg, k) == Open(active, k);
      OpenAppends(active, h, k);
    }
  }

  lemma SubscribeKeeps(w: World, key: string, l: Listener)
    requires WellKept(w) && Disciplined(w, Sub(key, l))
    ensures WellKept(Apply(w, Sub(key, l)))
  {
    var (reg, h) := Subscribe(w.reg, key, l);
    SubscribeEffect(w.reg, key, l);
    OpenMembers(w.active, key, l);
    SubscribeMirrors(w.reg, reg, w.active, h);
    assert HandlesFit(reg, w.active + [h]) by {
      assert forall x :: x in w.active ==> IsCurrent(w.reg, x);
    }
    assert DistinctSubscriptions(w.active + [h]);
  }

  lemma UnsubscribeEffect(reg: Registry, h: Handle)
    requires SetsFit(reg) && IsCurrent(reg, h)
    ensures var after := Unsubscribe(reg, h);
            && SetsFit(after) && Loses(reg, after, h)
            && (forall k :: k in reg.index && Members(after, k) != [] ==>
                  k in after.index && after.index[k] == reg.index[k])
  {
  }

  lemma UnsubscribeKeeps(w: World, h: Handle)
    requires WellKept(w) && h in w.active
    ensures WellKept(Apply(w, Unsub(h)))
  {
    var reg, left := Unsubscribe(w.reg, h), Drop(w.active, h);
    UnsubscribeEffect(w.reg, h);
    DropKeeps(w.active, h);
    assert Mirrors(reg, left) by {
      forall k
        ensures Members(reg, k) == Open(left, k)
      {
        assert Members(w.reg, k) == Open(w.active, k);
        OpenDrops(w.active, h, k);
      }
    }
    forall x | x in left
      ensures IsCurrent(reg, x)
    {
      assert x in w.active;
      OpenMembers(left, x.key, x.listener);
    }
  }

  lemma ApplyKeeps(w: World, op: Op)
    requires WellKept(w) && Disciplined(w, op)
    ensures WellKept(Apply(w, op))
  {
    match op {
      case Sub(key, l) => SubscribeKeeps(w, key, l);
      case Unsub(h) => UnsubscribeKeeps(w, h);
    }
  }

  /** A listener is in the set of a key exactly while it is subscribed to it. */
  lemma {:induction false} SubscribedExactlyWhileOpen(ops: seq<Op>)
    requires AllDisciplined(ops)
    ensures WellKept(RunOps(ops))
    ensures forall key, l :: l in Members(RunOps(ops).reg, key) <==>
              exists h :: h in RunOps(ops).active && h.key == key && h.listener == l
  {
    if ops != [] {
      var before, op := ops[..|ops| - 1], ops[|ops| - 1];
      forall i | 0 <= i < |before|
        ensures Disciplined(RunOps(before[..i]), before[i])
      {
        assert before[..i] == ops[..i];
      }
      SubscribedExactlyWhileOpen(before);
      assert Disciplined(RunOps(ops[..|ops| - 1]), ops[|ops| - 1]);
      ApplyKeeps(RunOps(before), op);
    }
    forall key, l
      ensures l in Members(RunOps(ops).reg, key) <==>
              exists h :: h in RunOps(ops).active && h.key == key && h.listener == l
    {
      OpenMembers(RunOps(ops).active, key, l);
    }
  }

  // -------------------------------------------------------------------------
  // Undisciplined use
  // -------------------------------------------------------------------------

  /** For any handle at any time: unsubscribing drops somebody else exactly when the handle's own set
      ends up empty while the key has since been given another, inhabited by another listener. */
  lemma UnsubscribeDropsOthersExactlyWhen(reg: Registry, h: Handle)
    ensures (exists l :: l in Members(reg, h.key) && l != h.listener && l !in Members(Unsubscribe(reg, h), h.key)) <==>
            && h.setId in reg.sets && h.key in reg.index && reg.index[h.key] != h.setId
            && Without(reg.sets[h.setId], h.listener) == []
            && Without(Members(reg, h.key), h.listener) != []
  {
    var others := Without(Members(reg, h.key), h.listener);
    if others != [] {
      assert others[0] in others;
    }
  }

  /** ... and it happens: a handle used twice silences a listener that subscribed in between. */
  lemma RepeatedUnsubscribeSilencesAnother(key: string)
    ensures var (r1, first) := Subscribe(EMPTY, key, 1);
            var (r2, second) := Subscribe(Unsubscribe(r1, first), key, 2);
            Members(r2, key) == [2] && Members(Unsubscribe(r2, first), key) == []
  {
    var (r1, first) := Subscribe(EMPTY, key, 1);
    assert Without([1], 1) == [];
  }

  /** A listener subscribed twice under one key is in its set once, and the first unsubscribe ends both. */
  lemma FirstUnsubscribeEndsBoth(key: string)
    ensures var (r1, first) := Subscribe(EMPTY, key, 1);
            var (r2, second) := Subscribe(r1, key, 1);
            second == first && Members(r2, key) == [1] && Members(Unsubscribe(r2, first), key) == []
  {
    assert Without([1], 1) == [];
  }
}
