/**
 A subscriber's location: created with its venue link in one remote call, deleted by
 clearing the link, deleting the location, and restoring the link if that fails.
 */
module LocationSaga {
  import opened Text
  import opened Json

  /** Venue links ("" for none) and the locations that exist. */
  datatype State = State(venues: map<string, string>, locations: set<string>)

  /** Between requests, or in a delete that has cleared a link and not yet finished. */
  datatype Phase = Idle | Cleared(venue: string, location: string)

  datatype Snapshot = Snapshot(state: State, phase: Phase)

  // ---------------------------------------------------------------- single remote effects

  ghost predicate CreatesLocation(a: Snapshot, b: Snapshot) {
    && a.phase == Idle && b.phase == Idle
    && exists v, l :: v in a.state.venues && a.state.venues[v] == "" && l != "" && l !in a.state.locations
                      && b.state == State(a.state.venues[v := l], a.state.locations + {l})
  }

  predicate ClearsLink(a: Snapshot, b: Snapshot) {
    && a.phase == Idle && b.phase.Cleared?
    && var v := b.phase.venue;
       && v in a.state.venues && a.state.venues[v] != "" && b.phase.location == a.state.venues[v]
       && b.state == a.state.(venues := a.state.venues[v := ""])
  }

  predicate DeletesLocation(a: Snapshot, b: Snapshot) {
    && a.phase.Cleared? && b.phase == Idle
    && b.state == a.state.(locations := a.state.locations - {a.phase.location})
  }

  predicate RestoresLink(a: Snapshot, b: Snapshot) {
    && a.phase.Cleared? && b.phase == Idle
    && b.state == a.state.(venues := a.state.venues[a.phase.venue := a.phase.location])
  }

  /** Both the delete and the restore failed: the link stays cleared. */
  predicate GivesUp(a: Snapshot, b: Snapshot) {
    a.phase.Cleared? && b.phase == Idle && b.state == a.state
  }

  ghost predicate Effect(a: Snapshot, b: Snapshot) {
    CreatesLocation(a, b) || ClearsLink(a, b) || DeletesLocation(a, b) || RestoresLink(a, b) || GivesUp(a, b)
  }

  // ---------------------------------------------------------------- no dangling links

  /** Every link points at an existing location. */
  predicate NoDangling(s: State) {
    forall v :: v in s.venues && s.venues[v] != "" ==> s.venues[v] in s.locations
  }

  /** No two venues share a location. */
  predicate Unshared(s: State) {
    forall v, w :: v in s.venues && w in s.venues && v != w && s.venues[v] != "" ==> s.venues[v] != s.venues[w]
  }

  predicate Consistent(s: Snapshot) {
    && NoDangling(s.state) && Unshared(s.state)
    && (s.phase.Cleared? ==>
          && s.phase.venue in s.state.venues && s.state.venues[s.phase.venue] == ""
          && s.phase.location in s.state.locations && s.phase.location != ""
          && forall v :: v in s.state.venues ==> s.state.venues[v] != s.phase.location)
  }

  lemma EffectKeepsConsistent(a: Snapshot, b: Snapshot)
    requires Consistent(a) && Effect(a, b)
    ensures Consistent(b)
  {
    if CreatesLocation(a, b) {
      var v, l :| v in a.state.venues && a.state.venues[v] == "" && l != "" && l !in a.state.locations
                  && b.state == State(a.state.venues[v := l], a.state.locations + {l});
    }
  }

  /** Through every single remote effect of any run of creates and deletes, no link dangles. */
  lemma {:induction false} RunsNeverDangle(run: seq<Snapshot>)
    requires run != [] && Consistent(run[0])
    requires forall i :: 0 <= i < |run| - 1 ==> Effect(run[i], run[i + 1])
    ensures forall i :: 0 <= i < |run| ==> Consistent(run[i]) && NoDangling(run[i].state)
  {
    var n := |run| - 1;
    if n > 0 {
      RunsNeverDangle(run[..n]);
      assert Consistent(run[..n][n - 1]);
      EffectKeepsConsistent(run[n - 1], run[n]);
    }
  }

  // ---------------------------------------------------------------- without the sharing condition

  /** Some other venue uses the location of `venue`. */
  predicate Shared(s: State, venue: string)
    requires venue in s.venues
  {
    exists w :: w in s.venues && w != venue && s.venues[w] == s.venues[venue]
  }

  /** The state a finished delete leaves. */
  function Deleted(s: State, venue: string): State
    requires venue in s.venues
  {
    State(s.venues[venue := ""], s.locations - {s.venues[venue]})
  }

  /** A finished delete is safe exactly when no other venue uses the location. */
  lemma DeleteIsSafeIff(s: State, venue: string)
    requires NoDangling(s) && venue in s.venues && s.venues[venue] != ""
    ensures NoDangling(Deleted(s, venue)) <==> !Shared(s, venue)
  {
    if Shared(s, venue) {
      var w :| w in s.venues && w != venue && s.venues[w] == s.venues[venue];
      assert w in Deleted(s, venue).venues && Deleted(s, venue).venues[w] == s.venues[w];
    }
  }

  /** The failing input: two venues with one location. */
  lemma SharedLocationDangles()
    ensures var s := State(map["a" := "l", "b" := "l"], {"l"});
            NoDangling(s) && !NoDangling(Deleted(s, "a")) && !NoDangling(Deleted(s, "b"))
  {
    var s := State(map["a" := "l", "b" := "l"], {"l"});
    assert s.venues["b"] == s.venues["a"];
    DeleteIsSafeIff(s, "a");
    DeleteIsSafeIff(s, "b");
  }

  /** The location about to be deleted is still linked from somewhere. */
  predicate StillLinked(a: Snapshot) {
    a.phase.Cleared? && exists v :: v in a.state.venues && a.state.venues[v] == a.phase.location
  }

  /** A phase other than idle was entered by the step before. */
  lemma ClearedByClearing(run: seq<Snapshot>, i: nat)
    requires i < |run| && run[0].phase == Idle && run[i].phase.Cleared?
    requires forall k :: 0 <= k < |run| - 1 ==> Effect(run[k], run[k + 1])
    ensures i > 0 && ClearsLink(run[i - 1], run[i])
  {
    assert Effect(run[i - 1], run[i]);
  }

  lemma EffectKeepsLinks(run: seq<Snapshot>, i: nat)
    requires i + 1 < |run| && run[0].phase == Idle
    requires forall k :: 0 <= k < |run| - 1 ==> Effect(run[k], run[k + 1])
    requires forall k :: 0 <= k <= i ==> NoDangling(run[k].state)
    requires !(DeletesLocation(run[i], run[i + 1]) && StillLinked(run[i]))
    ensures NoDangling(run[i + 1].state)
  {
    var a, b := run[i], run[i + 1];
    assert Effect(a, b);
    if a.phase.Cleared? {
      ClearedByClearing(run, i);
      assert NoDangling(run[i - 1].state);
    } else if CreatesLocation(a, b) {
      var v, l :| v in a.state.venues && a.state.venues[v] == "" && l != "" && l !in a.state.locations
                  && b.state == State(a.state.venues[v := l], a.state.locations + {l});
    }
  }

  lemma {:induction false} LinksHoldUpTo(run: seq<Snapshot>, n: nat)
    requires n < |run| && run[0].phase == Idle && NoDangling(run[0].state)
    requires forall k :: 0 <= k < |run| - 1 ==> Effect(run[k], run[k + 1])
    requires forall k :: 0 <= k < |run| - 1 ==> !(DeletesLocation(run[k], run[k + 1]) && StillLinked(run[k]))
    ensures forall k :: 0 <= k <= n ==> NoDangling(run[k].state)
  {
    if n > 0 {
      LinksHoldUpTo(run, n - 1);
      EffectKeepsLinks(run, n - 1);
    }
  }

  /** For any run from a state without dangling links, shared locations or not: links hold iff no linked location is deleted. */
  lemma RunIsSafeIff(run: seq<Snapshot>)
    requires run != [] && run[0].phase == Idle && NoDangling(run[0].state)
    requires forall k :: 0 <= k < |run| - 1 ==> Effect(run[k], run[k + 1])
    ensures (forall k :: 0 <= k < |run| ==> NoDangling(run[k].state))
            <==> forall k :: 0 <= k < |run| - 1 ==> !(DeletesLocation(run[k], run[k + 1]) && StillLinked(run[k]))
  {
    if forall k :: 0 <= k < |run| - 1 ==> !(DeletesLocation(run[k], run[k + 1]) && StillLinked(run[k])) {
      LinksHoldUpTo(run, |run| - 1);
    } else {
      var k :| 0 <= k < |run| - 1 && DeletesLocation(run[k], run[k + 1]) && StillLinked(run[k]);
      ClearedByClearing(run, k);
      var v :| v in run[k].state.venues && run[k].state.venues[v] == run[k].phase.location;
      assert run[k + 1].state.venues[v] == run[k].phase.location;
    }
  }

  // ---------------------------------------------------------------- the two requests

  datatype Reply = Ok | UnAuthorized | BadRequest | NotFound | InternalError | Forwarded

  /** The venues listed for the subscriber, or the status of the failed lookup. */
  datatype Venues = VenuesFail(status: int) | Venues(ids: seq<string>)

  datatype Remote = Remote(venues: Venues, newLocation: Option<string>, clears: bool, deletes: bool, restores: bool)

  const ALLOWED_KEYS: set<string> :=
    {"name", "description", "type", "buildingName", "addressLines", "city", "state", "postal", "country",
     "phones", "mobiles", "geoCode", "timezone"}

  /** Only known keys, and a time zone that names a known zone once trimmed. */
  predicate AcceptableBody(body: Option<Object>, zones: set<string>) {
    && body.Some? && body.value.Keys <= ALLOWED_KEYS
    && HasStr(body.value, "timezone") && Trim(body.value["timezone"].s) != "" && Trim(body.value["timezone"].s) in zones
  }

  /** The lookup named a venue. */
  predicate HasVenue(remote: Remote) {
    remote.venues.Venues? && remote.venues.ids != [] && remote.venues.ids[0] != ""
  }

  class Provisioning {
    var venues: map<string, string>
    var locations: set<string>
    /** Every snapshot so far, the current one last. */
    ghost var log: seq<Snapshot>

    ghost function Current(): State
      reads this
    {
      State(venues, locations)
    }

    ghost predicate Valid()
      reads this
    {
      && log != [] && log[|log| - 1] == Snapshot(Current(), Idle)
      && forall i :: 0 <= i < |log| - 1 ==> Effect(log[i], log[i + 1])
    }

    constructor (venues: map<string, string>, locations: set<string>)
      ensures Valid() && Current() == State(venues, locations)
    {
      this.venues, this.locations := venues, locations;
      log := [Snapshot(State(venues, locations), Idle)];
    }

    /** Append a snapshot reached by one remote effect. */
    ghost method Record(phase: Phase)
      requires log != [] && Effect(log[|log| - 1], Snapshot(Current(), phase))
      requires forall i :: 0 <= i < |log| - 1 ==> Effect(log[i], log[i + 1])
      modifies this`log
      ensures log == old(log) + [Snapshot(Current(), phase)]
      ensures forall i :: 0 <= i < |log| - 1 ==> Effect(log[i], log[i + 1])
    {
      log := log + [Snapshot(Current(), phase)];
    }

    /** Create: one remote call, made only for a venue without a location. */
    method DoPost(user: string, body: Option<Object>, zones: set<string>, remote: Remote) returns (reply: Reply)
      requires Valid()
      requires remote.newLocation.Some? ==> remote.newLocation.value != "" && remote.newLocation.value !in locations
      requires remote.venues.Venues? ==> forall v :: v in remote.venues.ids ==> v in venues
      modifies this
      ensures Valid() && old(log) <= log
      ensures reply == Ok <==>
              && user != "" && AcceptableBody(body, zones) && HasVenue(remote)
              && old(venues)[remote.venues.ids[0]] == "" && remote.newLocation.Some?
      ensures Current() == if reply == Ok
                           then State(old(venues)[remote.venues.ids[0] := remote.newLocation.value],
                                      old(locations) + {remote.newLocation.value})
                           else old(Current())
      ensures reply == UnAuthorized <==> user == ""
    {
      if user == "" {
        return UnAuthorized;
      }
      if body.None? || exists key :: key in body.value && key !in ALLOWED_KEYS {
        return BadRequest;
      }
      if !HasStr(body.value, "timezone") {
        return BadRequest;
      }
      var timezone := Trim(body.value["timezone"].s);
      if timezone == "" || timezone !in zones {
        return BadRequest;
      }
      if remote.venues.VenuesFail? {
        return if remote.venues.status != 200 then Forwarded else InternalError;
      }
      if remote.venues.ids == [] {
        return NotFound;
      }
      var venueId := remote.venues.ids[0];
      if venueId == "" {
        return InternalError;
      }
      if venues[venueId] != "" {
        return BadRequest;
      }
      if remote.newLocation.None? {
        return Forwarded;
      }
      var l := remote.newLocation.value;
      venues := venues[venueId := l];
      locations := locations + {l};
      Record(Idle);
      return Ok;
    }

    /** Delete: clear, delete, and restore if the delete failed. */
    method DoDelete(user: string, remote: Remote) returns (reply: Reply)
      requires Valid()
      requires remote.venues.Venues? ==> forall v :: v in remote.venues.ids ==> v in venues
      modifies this
      ensures Valid() && old(log) <= log
      ensures var target := user != "" && HasVenue(remote) && old(venues)[remote.venues.ids[0]] != "";
              && (reply == Ok <==> target && remote.clears && remote.deletes)
              && (!target || !remote.clears ==> Current() == old(Current()))
              && (target && remote.clears ==>
                    var v := remote.venues.ids[0];
                    Current() == if remote.deletes then Deleted(old(Current()), v)
                                 else if remote.restores then old(Current())
                                 else State(old(venues)[v := ""], old(locations)))
      ensures old(NoDangling(Current())) ==>
                (NoDangling(Current()) <==> !(reply == Ok && Shared(old(Current()), remote.venues.ids[0])))
      ensures reply == UnAuthorized <==> user == ""
    {
      if user == "" {
        return UnAuthorized;
      }
      if remote.venues.VenuesFail? {
        return if remote.venues.status != 200 then Forwarded else InternalError;
      }
      if remote.venues.ids == [] {
        return NotFound;
      }
      var venueId := remote.venues.ids[0];
      if venueId == "" {
        return InternalError;
      }
      if venues[venueId] == "" {
        return NotFound;
      }
      var locationId := venues[venueId];
      if !remote.clears {
        return Forwarded;
      }
      venues := venues[venueId := ""];
      Record(Cleared(venueId, locationId));
      if !remote.deletes {
        if remote.restores {
          venues := venues[venueId := locationId];
          assert venues == old(venues);
        }
        Record(Idle);
        return Forwarded;
      }
      locations := locations - {locationId};
      Record(Idle);
      if old(NoDangling(Current())) { DeleteIsSafeIff(old(Current()), venueId); }
      return Ok;
    }
  }
}
