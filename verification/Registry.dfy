/**
 The registry of peer services: an event-driven map fed by bus messages, with
 entries purged when no announcement has been seen for more than 120 seconds.
 Clock readings are unsigned 64-bit seconds; every message reads the clock when it
 stores an entry and again when it purges.
 */
module Registry {
  import opened Text

  const MAX_AGE := 120

  /** `Unreadable` covers every message whose processing throws before the purge. */
  datatype Message =
    | Unreadable
    | Readable(id: Option<nat>, event: Option<string>, kind: Option<string>, publicEndPoint: Option<string>,
               privateEndPoint: Option<string>, version: Option<string>, key: Option<string>)

  datatype Meta = Meta(id: nat, kind: string, privateEndPoint: string, publicEndPoint: string,
                       accessKey: string, version: string, lastUpdate: nat)

  type Services = map<string, Meta>

  /** A delivered message with its two clock readings. */
  datatype Event = Event(msg: Message, storedAt: nat, purgedAt: nat)

  /** Unsigned 64-bit subtraction. */
  function Age(now: nat, lastUpdate: nat): nat {
    (now - lastUpdate) % 0x1_0000_0000_0000_0000
  }

  /** A join, keep-alive or leave from another instance with all its fields. */
  predicate Valid(m: Message, self: nat) {
    && m.Readable? && m.id.Some? && m.event.Some? && m.id.value != self
    && (m.event.value == "join" || m.event.value == "keep-alive" || m.event.value == "leave")
    && m.kind.Some? && m.publicEndPoint.Some? && m.privateEndPoint.Some? && m.version.Some? && m.key.Some?
  }

  predicate IsAbout(m: Message, self: nat, endPoint: string) {
    Valid(m, self) && m.privateEndPoint.value == endPoint
  }

  predicate Announces(m: Message, self: nat, endPoint: string) {
    IsAbout(m, self, endPoint) && m.event.value != "leave"
  }

  function MetaOf(m: Message, self: nat, storedAt: nat): Meta
    requires Valid(m, self)
  {
    Meta(m.id.value, ToLower(m.kind.value), m.privateEndPoint.value, m.publicEndPoint.value,
         m.key.value, m.version.value, storedAt)
  }

  function Store(s: Services, self: nat, m: Message, storedAt: nat): Services {
    if !Valid(m, self) then s
    else if m.event.value == "leave" then s - {m.privateEndPoint.value}
    else s[m.privateEndPoint.value := MetaOf(m, self, storedAt)]
  }

  function Purge(s: Services, now: nat): Services {
    map e | e in s && Age(now, s[e].lastUpdate) <= MAX_AGE :: s[e]
  }

  function Deliver(s: Services, self: nat, ev: Event): Services {
    if ev.msg.Unreadable? then s else Purge(Store(s, self, ev.msg, ev.storedAt), ev.purgedAt)
  }

  function Run(events: seq<Event>, self: nat): Services {
    if events == [] then map[] else Deliver(Run(events[..|events| - 1], self), self, events[|events| - 1])
  }

  /** The entry repeats the message, field by field, with its type in lower case. */
  predicate Repeats(e: Meta, m: Message, storedAt: nat) {
    && m.Readable? && m.id == Some(e.id) && m.publicEndPoint == Some(e.publicEndPoint)
    && m.privateEndPoint == Some(e.privateEndPoint) && m.key == Some(e.accessKey) && m.version == Some(e.version)
    && m.kind.Some? && e.kind == ToLower(m.kind.value) && e.lastUpdate == storedAt
  }

  class MicroService {
    const id: nat
    var services: Services

    constructor (id: nat)
      ensures this.id == id && services == map[]
    {
      this.id := id;
      services := map[];
    }

    method BusMessageReceived(msg: Message, storedAt: nat, purgedAt: nat)
      modifies this`services
      ensures services == Deliver(old(services), id, Event(msg, storedAt, purgedAt))
      ensures forall e :: Announces(msg, id, e) && Age(purgedAt, storedAt) <= 120 ==>
                e in services && Repeats(services[e], msg, storedAt)
    {
      if msg.Unreadable? {
        return;
      }
      if msg.id.Some? && msg.event.Some? {
        var event := msg.event.value;
        if msg.id.value != id && (event == "join" || event == "keep-alive" || event == "leave") {
          if msg.kind.Some? && msg.publicEndPoint.Some? && msg.privateEndPoint.Some?
             && msg.version.Some? && msg.key.Some? {
            var endPoint := msg.privateEndPoint.value;
            if event == "leave" {
              services := services - {endPoint};
            } else {
              services := services[endPoint := MetaOf(msg, id, storedAt)];
            }
          }
        }
      }
      PurgeZombies(purgedAt);
    }

    method PurgeZombies(now: nat)
      modifies this`services
      ensures services == Purge(old(services), now)
    {
      var todo := services.Keys;
      while todo != {}
        invariant todo <= services.Keys <= old(services).Keys
        invariant forall e :: e in services ==> services[e] == old(services)[e]
        invariant forall e :: e in old(services) && e !in todo ==>
                    (e in services <==> Age(now, old(services)[e].lastUpdate) <= MAX_AGE)
        decreases |todo|
      {
        var e :| e in todo;
        if Age(now, services[e].lastUpdate) > MAX_AGE {
          services := services - {e};
        }
        todo := todo - {e};
      }
    }

    /** The entries of one type, each once, in end-point order. */
    method GetServices(kind: string) returns (r: seq<Meta>)
      ensures forall e :: e in services && services[e].kind == ToLower(kind) ==> services[e] in r
      ensures forall i :: 0 <= i < |r| ==> r[i] in services.Values && r[i].kind == ToLower(kind)
      ensures (forall e :: e in services ==> services[e].privateEndPoint == e) ==> InOrder(EndPointsOf(r))
    {
      r := [];
      var keys := SortedKeys(services.Keys);
      for k := 0 to |keys|
        invariant r == OfKind(services, keys[..k], ToLower(kind))
      {
        assert keys[..k + 1][..k] == keys[..k];
        if services[keys[k]].kind == ToLower(kind) {
          r := r + [services[keys[k]]];
        }
      }
      assert keys[..|keys|] == keys;
      OfKindMembers(services, keys, ToLower(kind));
      if forall e :: e in services ==> services[e].privateEndPoint == e {
        OfKindInOrder(services, keys, ToLower(kind));
      }
    }
  }

  function EndPointsOf(r: seq<Meta>): seq<string> {
    seq(|r|, i requires 0 <= i < |r| => r[i].privateEndPoint)
  }

  /** The entries of one type among the given keys, in their order. */
  function OfKind(s: Services, keys: seq<string>, kind: string): seq<Meta>
    requires forall k :: k in keys ==> k in s
  {
    if keys == [] then []
    else
      var front, e := OfKind(s, keys[..|keys| - 1], kind), s[keys[|keys| - 1]];
      if e.kind == kind then front + [e] else front
  }

  lemma {:induction false} OfKindMembers(s: Services, keys: seq<string>, kind: string)
    requires forall k :: k in keys ==> k in s
    ensures forall k :: k in keys && s[k].kind == kind ==> s[k] in OfKind(s, keys, kind)
    ensures forall e :: e in OfKind(s, keys, kind) ==> e in s.Values && e.kind == kind
  {
    if keys != [] {
      var front := keys[..|keys| - 1];
      OfKindMembers(s, front, kind);
      assert keys == front + [keys[|keys| - 1]];
    }
  }

  lemma {:induction false} OfKindInOrder(s: Services, keys: seq<string>, kind: string)
    requires InOrder(keys) && forall k :: k in keys ==> k in s && s[k].privateEndPoint == k
    ensures InOrder(EndPointsOf(OfKind(s, keys, kind)))
    ensures forall x :: x in EndPointsOf(OfKind(s, keys, kind)) ==> x in keys
  {
    if keys != [] {
      var front, n := keys[..|keys| - 1], keys[|keys| - 1];
      OfKindInOrder(s, front, kind);
      var before, all := EndPointsOf(OfKind(s, front, kind)), EndPointsOf(OfKind(s, keys, kind));
      assert keys == front + [n];
      if s[n].kind == kind {
        assert all == before + [n];
        forall i | 0 <= i < |before| ensures Less(before[i], n) {
          assert before[i] in front;
        }
      }
    }
  }

  // ---------------------------------------------------------------- the registry is its history

  /** Event `i` is the last word about the end point, it announced it, and no purge since found it too old. */
  predicate Holds(events: seq<Event>, self: nat, endPoint: string, i: nat) {
    && i < |events| && Announces(events[i].msg, self, endPoint)
    && (forall j :: i < j < |events| ==> !IsAbout(events[j].msg, self, endPoint))
    && (forall j :: i <= j < |events| && events[j].msg.Readable? ==>
          Age(events[j].purgedAt, events[i].storedAt) <= 120)
  }

  lemma DeliverAt(s: Services, self: nat, ev: Event, endPoint: string)
    ensures var t := Deliver(s, self, ev);
            if ev.msg.Unreadable? then t == s
            else if IsAbout(ev.msg, self, endPoint) then
              (endPoint in t <==> Announces(ev.msg, self, endPoint) && Age(ev.purgedAt, ev.storedAt) <= 120)
              && (endPoint in t ==> Repeats(t[endPoint], ev.msg, ev.storedAt))
            else
              (endPoint in t <==> endPoint in s && Age(ev.purgedAt, s[endPoint].lastUpdate) <= 120)
              && (endPoint in t ==> t[endPoint] == s[endPoint])
  {
  }

  lemma HoldsSnoc(front: seq<Event>, last: Event, self: nat, endPoint: string, i: nat)
    ensures Holds(front + [last], self, endPoint, i) <==>
            if i == |front| then
              Announces(last.msg, self, endPoint) && Age(last.purgedAt, last.storedAt) <= 120
            else
              Holds(front, self, endPoint, i) && !IsAbout(last.msg, self, endPoint)
              && (last.msg.Readable? ==> Age(last.purgedAt, front[i].storedAt) <= 120)
  {
    var events := front + [last];
    assert events[|front|] == last;
    assert forall j :: 0 <= j < |front| ==> events[j] == front[j];
  }

  /** For any clock: an end point is registered iff some event holds it, with that event's data. */
  lemma {:induction false} RegistryIsHistory(events: seq<Event>, self: nat, endPoint: string)
    ensures endPoint in Run(events, self) <==> exists i: nat :: Holds(events, self, endPoint, i)
    ensures forall i: nat :: Holds(events, self, endPoint, i) ==>
              endPoint in Run(events, self)
              && Repeats(Run(events, self)[endPoint], events[i].msg, events[i].storedAt)
  {
    if events != [] {
      var n := |events| - 1;
      var front, last := events[..n], events[n];
      assert events == front + [last];
      RegistryIsHistory(front, self, endPoint);
      DeliverAt(Run(front, self), self, last, endPoint);
      forall i: nat | Holds(events, self, endPoint, i)
        ensures endPoint in Run(events, self)
        ensures Repeats(Run(events, self)[endPoint], events[i].msg, events[i].storedAt)
      {
        HoldsSnoc(front, last, self, endPoint, i);
      }
      if endPoint in Run(events, self) {
        var i: nat := if IsAbout(last.msg, self, endPoint) then n else HolderOf(front, self, endPoint);
        HoldsSnoc(front, last, self, endPoint, i);
      }
    }
  }

  ghost function HolderOf(events: seq<Event>, self: nat, endPoint: string): (i: nat)
    requires exists i: nat :: Holds(events, self, endPoint, i)
    ensures Holds(events, self, endPoint, i)
  {
    var i: nat :| Holds(events, self, endPoint, i);
    i
  }

  /** A held peer matches a request for its type in any spelling, and shows what it announced. */
  lemma FoundUnderAnySpelling(events: seq<Event>, self: nat, endPoint: string, i: nat, kind: string)
    requires Holds(events, self, endPoint, i) && ToLower(kind) == ToLower(events[i].msg.kind.value)
    ensures endPoint in Run(events, self) && Run(events, self)[endPoint].kind == ToLower(kind)
    ensures Repeats(Run(events, self)[endPoint], events[i].msg, events[i].storedAt)
  {
    RegistryIsHistory(events, self, endPoint);
  }

  /** The three events by name: another instance's join or keep-alive registers, its leave removes, one's own do nothing. */
  lemma EventsByName(s: Services, self: nat, id: nat, event: string, kind: string, pub: string, priv: string,
                     version: string, key: string, now: nat)
    ensures var m := Readable(Some(id), Some(event), Some(kind), Some(pub), Some(priv), Some(version), Some(key));
            var t := Deliver(s, self, Event(m, now, now));
            && (id != self && (event == "join" || event == "keep-alive") ==>
                  priv in t && t[priv] == Meta(id, ToLower(kind), priv, pub, key, version, now))
            && (id != self && event == "leave" ==> priv !in t)
            && (id == self || event !in {"join", "keep-alive", "leave"} ==>
                  forall e :: e in t <==> e in s && Age(now, s[e].lastUpdate) <= 120)
  {
  }

  /** Entries sit under their own end point, so `GetServices` lists no service twice. */
  lemma EntriesAreKeyed(events: seq<Event>, self: nat, endPoint: string)
    requires endPoint in Run(events, self)
    ensures Run(events, self)[endPoint].privateEndPoint == endPoint
  {
    RegistryIsHistory(events, self, endPoint);
    var i := HolderOf(events, self, endPoint);
  }

  /** Readings never go back: within a message and from one message to the next. */
  predicate ClockForward(events: seq<Event>) {
    && (forall i :: 0 <= i < |events| ==> events[i].storedAt <= events[i].purgedAt < 0x1_0000_0000_0000_0000)
    && (forall i, j :: 0 <= i < j < |events| ==> events[i].purgedAt <= events[j].storedAt)
  }

  predicate LastWord(events: seq<Event>, self: nat, endPoint: string, i: nat) {
    && i < |events| && IsAbout(events[i].msg, self, endPoint)
    && forall j :: i < j < |events| ==> !IsAbout(events[j].msg, self, endPoint)
  }

  /** The clock at the last readable message. */
  function LastPurge(events: seq<Event>): nat {
    if events == [] then 0
    else if events[|events| - 1].msg.Readable? then events[|events| - 1].purgedAt
    else LastPurge(events[..|events| - 1])
  }

  lemma {:induction false} LastPurgeIsLatest(events: seq<Event>, i: nat)
    requires ClockForward(events) && i < |events| && events[i].msg.Readable?
    ensures exists k :: i <= k < |events| && events[k].msg.Readable? && events[k].purgedAt == LastPurge(events)
    ensures forall j :: 0 <= j < |events| && events[j].msg.Readable? ==> events[j].purgedAt <= LastPurge(events)
  {
    var n := |events| - 1;
    if !events[n].msg.Readable? {
      var front := events[..n];
      LastPurgeIsLatest(front, i);
      assert forall j :: 0 <= j < n ==> front[j] == events[j];
      var k :| i <= k < |front| && front[k].msg.Readable? && front[k].purgedAt == LastPurge(front);
      assert events[k].purgedAt == LastPurge(events);
    }
  }

  /** With a forward clock only the last purge matters, and its age is an ordinary difference. */
  lemma RegistryIsRecentHistory(events: seq<Event>, self: nat, endPoint: string)
    requires ClockForward(events)
    ensures endPoint in Run(events, self) <==>
            exists i: nat :: LastWord(events, self, endPoint, i) && events[i].msg.event.value != "leave"
                             && LastPurge(events) - events[i].storedAt <= 120
  {
    RegistryIsHistory(events, self, endPoint);
    forall i: nat | LastWord(events, self, endPoint, i) && events[i].msg.event.value != "leave"
      ensures Holds(events, self, endPoint, i) <==> LastPurge(events) - events[i].storedAt <= 120
    {
      LastPurgeIsLatest(events, i);
      AgesAreDifferences(events, i);
    }
  }

  lemma AgesAreDifferences(events: seq<Event>, i: nat)
    requires ClockForward(events) && i < |events|
    ensures forall j :: i <= j < |events| ==>
              Age(events[j].purgedAt, events[i].storedAt) == events[j].purgedAt - events[i].storedAt
  {
    forall j | i <= j < |events|
      ensures Age(events[j].purgedAt, events[i].storedAt) == events[j].purgedAt - events[i].storedAt
    {
      assert i < j ==> events[i].purgedAt <= events[j].storedAt;
    }
  }

  /** A peer that re-announces itself at least every 120 s of bus time stays until it leaves. */
  lemma KeepAliveSuffices(events: seq<Event>, self: nat, endPoint: string, joined: nat)
    requires ClockForward(events) && joined < |events| && Announces(events[joined].msg, self, endPoint)
    requires forall j :: joined <= j < |events| && IsAbout(events[j].msg, self, endPoint) ==>
               Announces(events[j].msg, self, endPoint)
    requires forall j :: joined <= j < |events| && events[j].msg.Readable? ==>
               exists k :: joined <= k <= j && Announces(events[k].msg, self, endPoint)
                           && events[j].purgedAt - events[k].storedAt <= 120
    ensures endPoint in Run(events, self)
  {
    var last := LastAbout(events, self, endPoint, joined);
    AgesAreDifferences(events, last);
    forall j | last <= j < |events| && events[j].msg.Readable?
      ensures Age(events[j].purgedAt, events[last].storedAt) <= 120
    {
      var k :| joined <= k <= j && Announces(events[k].msg, self, endPoint)
               && events[j].purgedAt - events[k].storedAt <= 120;
      StoredInOrder(events, k, last);
    }
    assert Holds(events, self, endPoint, last);
    RegistryIsHistory(events, self, endPoint);
  }

  lemma StoredInOrder(events: seq<Event>, k: nat, last: nat)
    requires ClockForward(events) && k <= last < |events|
    ensures events[k].storedAt <= events[last].storedAt
  {
    assert k < last ==> events[k].purgedAt <= events[last].storedAt;
  }

  lemma {:induction false} LastAbout(events: seq<Event>, self: nat, endPoint: string, from: nat) returns (last: nat)
    requires from < |events| && IsAbout(events[from].msg, self, endPoint)
    ensures from <= last && LastWord(events, self, endPoint, last)
    decreases |events| - from
  {
    if j :| from < j < |events| && IsAbout(events[j].msg, self, endPoint) {
      last := LastAbout(events, self, endPoint, j);
    } else {
      last := from;
    }
  }

  /** One second of backward clock drops a fresh peer: the unsigned age wraps. */
  lemma BackwardClockDropsPeer(m: Message, self: nat, endPoint: string, t: nat)
    requires Announces(m, self, endPoint) && 0 < t < 0x1_0000_0000_0000_0000
    ensures endPoint in Run([Event(m, t, t)], self)
    ensures var other := Readable(None, None, None, None, None, None, None);
            endPoint !in Run([Event(m, t, t), Event(other, t - 1, t - 1)], self)
  {
    var first := Event(m, t, t);
    var other := Event(Readable(None, None, None, None, None, None, None), t - 1, t - 1);
    assert Holds([first], self, endPoint, 0);
    RegistryIsHistory([first], self, endPoint);
    assert [first, other][1] == other && [first, other][0] == first;
    RegistryIsHistory([first, other], self, endPoint);
  }
}
