/**
  The hash-chained audit log (audit_service.py).  The digest of an event covers
  every hashed field, among them the sequence number and the previous digest.
  Nothing is assumed of the digest function: what a verifying log commits to is
  stated up to an explicit collision.
*/
module AuditChain {
  import opened Options

  /** The hashed fields that describe what happened. */
  datatype Details = Details(
    eventType: string, actorId: Option<int>, actorName: Option<string>, actorRoles: string, action: string,
    resourceType: Option<string>, resourceId: Option<string>, route: Option<string>, verb: Option<string>,
    requestId: string, outcome: string, statusCode: Option<int>, reason: Option<string>, metadata: string,
    clientIp: Option<string>, userAgent: Option<string>, occurredAt: string)

  /** All hashed fields of an event: its place in the chain and its details. */
  datatype Fields = Fields(sequence: int, details: Details, previous: Option<string>)

  function Clip(text: string, limit: nat): string {
    if |text| <= limit then text else text[..limit]
  }

  function ClipIfAny(text: Option<string>, limit: nat): Option<string> {
    if text.Some? && text.value != "" then Some(Clip(text.value, limit)) else None
  }

  /** The column widths a record is cut to before it is hashed and stored. */
  function Clipped(d: Details): Details {
    d.(eventType := Clip(d.eventType, 80),
       actorName := if d.actorId.Some? && d.actorName.Some? then Some(Clip(d.actorName.value, 64)) else None,
       action := Clip(d.action, 120), resourceType := ClipIfAny(d.resourceType, 80),
       resourceId := if d.resourceId.Some? then Some(Clip(d.resourceId.value, 100)) else None,
       route := ClipIfAny(d.route, 250), verb := ClipIfAny(d.verb, 10), requestId := Clip(d.requestId, 64),
       reason := ClipIfAny(d.reason, 80), userAgent := ClipIfAny(d.userAgent, 200))
  }

  /** `stored` is `text`, or as much of it as fits. */
  predicate Cut(text: string, stored: string, limit: nat) {
    stored <= text && |stored| <= limit && (stored == text || |stored| == limit)
  }

  predicate CutIfAny(text: Option<string>, stored: Option<string>, limit: nat) {
    if text.None? || text.value == "" then stored.None? else stored.Some? && Cut(text.value, stored.value, limit)
  }

  /** The record says what happened, field by field, to the width of each column. */
  predicate Recorded(d: Details, s: Details) {
    && Cut(d.eventType, s.eventType, 80) && Cut(d.action, s.action, 120) && Cut(d.requestId, s.requestId, 64)
    && s.actorId == d.actorId && s.actorRoles == d.actorRoles && s.outcome == d.outcome && s.statusCode == d.statusCode
    && s.metadata == d.metadata && s.clientIp == d.clientIp && s.occurredAt == d.occurredAt
    && (if d.actorId.None? || d.actorName.None? then s.actorName.None?
        else s.actorName.Some? && Cut(d.actorName.value, s.actorName.value, 64))
    && (if d.resourceId.None? then s.resourceId.None? else s.resourceId.Some? && Cut(d.resourceId.value, s.resourceId.value, 100))
    && CutIfAny(d.resourceType, s.resourceType, 80) && CutIfAny(d.route, s.route, 250) && CutIfAny(d.verb, s.verb, 10)
    && CutIfAny(d.reason, s.reason, 80) && CutIfAny(d.userAgent, s.userAgent, 200)
  }

  lemma ClippedIsRecorded(d: Details)
    ensures Recorded(d, Clipped(d))
  {
  }

  datatype Event = Event(id: nat, fields: Fields, hash: string)

  type Digest = Fields -> string

  /** The event at position `i` is numbered, linked and hashed as the chain demands. */
  predicate Intact(digest: Digest, log: seq<Event>, i: nat)
    requires i < |log|
  {
    && log[i].fields.sequence == i + 1
    && log[i].fields.previous == (if i == 0 then None else Some(log[i - 1].hash))
    && log[i].hash == digest(log[i].fields)
  }

  predicate Verifies(digest: Digest, log: seq<Event>) {
    forall i :: 0 <= i < |log| ==> Intact(digest, log, i)
  }

  /** The event a new record becomes, given the newest event of the log. */
  function Chained(digest: Digest, log: seq<Event>, id: nat, details: Details): Event {
    var fields :=
      if log == [] then Fields(1, Clipped(details), None)
      else Fields(log[|log| - 1].fields.sequence + 1, Clipped(details), Some(log[|log| - 1].hash));
    Event(id, fields, digest(fields))
  }

  datatype Report =
    | Valid(examined: nat)
    | Broken(examined: nat, sequence: int, id: nat, expected: string, observed: string)

  class AuditLog {
    const digest: Digest
    var events: seq<Event>

    constructor (digest: Digest)
      ensures this.digest == digest && events == []
    {
      this.digest, events := digest, [];
    }

    method AppendEvent(id: nat, details: Details) returns (event: Event)
      modifies this
      ensures event == Chained(digest, old(events), id, details) && events == old(events) + [event]
      ensures event.id == id && Recorded(details, event.fields.details)
      ensures Verifies(digest, events) <==> Verifies(digest, old(events))
    {
      var fields := Fields(1, Clipped(details), None);
      if events != [] {
        var previous := events[|events| - 1];
        fields := Fields(previous.fields.sequence + 1, Clipped(details), Some(previous.hash));
      }
      event := Event(id, fields, digest(fields));
      AppendPreserves(digest, events, id, details);
      ClippedIsRecorded(details);
      events := events + [event];
    }

    /** Reports the least position that fails, or that none does. */
    method VerifyIntegrity() returns (report: Report)
      ensures report.Valid? <==> Verifies(digest, events)
      ensures report.Valid? ==> report.examined == |events|
      ensures report.Broken? ==>
        && 1 <= report.examined <= |events|
        && !Intact(digest, events, report.examined - 1)
        && (forall i :: 0 <= i < report.examined - 1 ==> Intact(digest, events, i))
        && report == Broken(report.examined, events[report.examined - 1].fields.sequence, events[report.examined - 1].id,
                            digest(events[report.examined - 1].fields), events[report.examined - 1].hash)
    {
      var previous: Option<string> := None;
      for i := 0 to |events|
        invariant previous == if i == 0 then None else Some(events[i - 1].hash)
        invariant forall j :: 0 <= j < i ==> Intact(digest, events, j)
      {
        var event := events[i];
        var expected := digest(event.fields);
        if event.fields.sequence != i + 1 || event.fields.previous != previous || event.hash != expected {
          assert !Intact(digest, events, i);
          return Broken(i + 1, event.fields.sequence, event.id, expected, event.hash);
        }
        previous := Some(event.hash);
      }
      return Valid(|events|);
    }
  }

  // ---- logs built by appending ----

  /** A log verifies after an append exactly when it did before. */
  lemma AppendPreserves(digest: Digest, log: seq<Event>, id: nat, details: Details)
    ensures Verifies(digest, log + [Chained(digest, log, id, details)]) <==> Verifies(digest, log)
  {
    var longer := log + [Chained(digest, log, id, details)];
    forall i | 0 <= i < |log| ensures Intact(digest, longer, i) <==> Intact(digest, log, i) {
      assert longer[i] == log[i];
    }
    if Verifies(digest, log) && log != [] {
      assert Intact(digest, log, |log| - 1);
    }
    if Verifies(digest, longer) {
      forall i | 0 <= i < |log| ensures Intact(digest, log, i) { assert Intact(digest, longer, i); }
    }
  }

  /** The log that a series of records builds. */
  function Built(digest: Digest, records: seq<(nat, Details)>): seq<Event> {
    if records == [] then []
    else
      var log := Built(digest, records[..|records| - 1]);
      log + [Chained(digest, log, records[|records| - 1].0, records[|records| - 1].1)]
  }

  lemma {:induction false} BuiltVerifies(digest: Digest, records: seq<(nat, Details)>)
    ensures Verifies(digest, Built(digest, records)) && |Built(digest, records)| == |records|
  {
    if records != [] {
      var n := |records| - 1;
      BuiltVerifies(digest, records[..n]);
      AppendPreserves(digest, Built(digest, records[..n]), records[n].0, records[n].1);
    }
  }

  /** Cutting events off the end of a verifying log is not detected. */
  lemma PrefixVerifies(digest: Digest, log: seq<Event>, n: nat)
    requires Verifies(digest, log) && n <= |log|
    ensures Verifies(digest, log[..n])
  {
    forall i | 0 <= i < n ensures Intact(digest, log[..n], i) {
      assert Intact(digest, log, i);
    }
  }

  // ---- what the newest digest commits to ----

  predicate Collision(digest: Digest, a: Fields, b: Fields) {
    a != b && digest(a) == digest(b)
  }

  ghost predicate SameHistory(a: seq<Event>, b: seq<Event>) {
    |a| == |b| && forall i :: 0 <= i < |a| ==> a[i].fields == b[i].fields && a[i].hash == b[i].hash
  }

  /**
    Two verifying logs that end in the same digest are the same history: equal in
    length and in every hashed field.  Otherwise the two logs exhibit a collision.
  */
  lemma {:induction false} NewestDigestCommits(digest: Digest, a: seq<Event>, b: seq<Event>) returns (x: Fields, y: Fields)
    requires Verifies(digest, a) && Verifies(digest, b) && a != [] && b != []
    requires a[|a| - 1].hash == b[|b| - 1].hash
    ensures SameHistory(a, b) || Collision(digest, x, y)
    decreases |a|
  {
    var m, n := |a| - 1, |b| - 1;
    x, y := a[m].fields, b[n].fields;
    assert Intact(digest, a, m) && Intact(digest, b, n);
    if x == y {
      assert m == n;
      if m > 0 {
        PrefixVerifies(digest, a, m);
        PrefixVerifies(digest, b, n);
        x, y := NewestDigestCommits(digest, a[..m], b[..n]);
        if SameHistory(a[..m], b[..n]) {
          forall i | 0 <= i < |a| ensures a[i].fields == b[i].fields && a[i].hash == b[i].hash {
            if i < m { assert a[..m][i].fields == b[..n][i].fields && a[..m][i].hash == b[..n][i].hash; }
          }
        }
      }
    }
  }

  /** With a collision-free digest, any edit, deletion or reordering before an unchanged newest event is detected. */
  lemma TamperingIsDetected(digest: Digest, log: seq<Event>, tampered: seq<Event>)
    requires forall x, y :: !Collision(digest, x, y)
    requires Verifies(digest, log) && log != [] && tampered != []
    requires tampered[|tampered| - 1].hash == log[|log| - 1].hash
    requires !SameHistory(log, tampered)
    ensures !Verifies(digest, tampered)
  {
    if Verifies(digest, tampered) {
      var x, y := NewestDigestCommits(digest, log, tampered);
    }
  }

  /** A renumbered event is detected, wherever its new number puts it among the others. */
  lemma RenumberingIsDetected(digest: Digest, log: seq<Event>, k: nat, edited: Event, after: seq<Event>)
    requires Verifies(digest, log) && k < |log| && edited.fields.sequence != k + 1
    requires multiset(after) == multiset(log[k := edited])
    ensures !Verifies(digest, after)
  {
    var changed := log[k := edited];
    assert |multiset(after)| == |after| && |multiset(changed)| == |log|;
    forall e: Event | e in multiset(changed) ensures e.fields.sequence != k + 1 {
      var i :| 0 <= i < |log| && changed[i] == e;
      assert i != k ==> Intact(digest, log, i);
    }
    assert after[k] in multiset(after);
    assert !Intact(digest, after, k);
  }

  /** The event is linked to the one before it. */
  predicate Linked(log: seq<Event>, k: nat, e: Event)
    requires k < |log|
  {
    e.fields.previous == if k == 0 then None else Some(log[k - 1].hash)
  }

  /**
    Rewriting one event of a verifying log that keeps its number: the event stays
    intact only if it is linked and carries its own digest, and the next one only
    if the digest is the one that was there; nothing else is touched.  So an edit
    of any other hashed field is found at the event or at the next one, unless it
    is the newest event or the old and the new fields collide.
  */
  lemma EditIsLocated(digest: Digest, log: seq<Event>, k: nat, edited: Event)
    requires Verifies(digest, log) && k < |log| && edited.fields.sequence == k + 1
    ensures var after := log[k := edited];
            && (forall i :: 0 <= i < |log| && i != k && i != k + 1 ==> Intact(digest, after, i))
            && (Intact(digest, after, k) <==> Linked(log, k, edited) && edited.hash == digest(edited.fields))
            && (k + 1 < |log| ==> (Intact(digest, after, k + 1) <==> edited.hash == log[k].hash))
            && (edited.fields != log[k].fields && k + 1 < |log| ==>
                  !Intact(digest, after, k) || !Intact(digest, after, k + 1) || Collision(digest, log[k].fields, edited.fields))
  {
    var after := log[k := edited];
    forall i | 0 <= i < |log| && i != k && i != k + 1 ensures Intact(digest, after, i) {
      assert Intact(digest, log, i) && after[i] == log[i] && (i > 0 ==> after[i - 1] == log[i - 1]);
    }
    assert Intact(digest, log, k) && (k > 0 ==> after[k - 1] == log[k - 1]);
    if k + 1 < |log| { assert Intact(digest, log, k + 1) && after[k + 1] == log[k + 1]; }
  }
}
