/** What one Docker event is, and what `SendToRancherHandler` makes of it
    (`events/send_to_rancher_handler.go`, `events/entry.go`). */
module EventHandling {
  import opened ByteStrings

  const SIMULATED := "-simulated-"

  datatype Event = Event(status: string, id: string, from: string, time: int)

  datatype Inspection = Inspected(container: string) | NoSuchContainer | InspectError

  datatype ContainerEvent = ContainerEvent(
    externalStatus: string, externalId: string, externalFrom: string, externalTimestamp: int,
    reportedHostUuid: string, dockerInspect: Option<string>)

  /** How one call of the handler ends. */
  datatype Outcome =
    | Skipped                               // a simulated event
    | Suppressed                            // the key is locked by another call
    | InspectFailed
    | Sent(event: ContainerEvent, ok: bool) // `ok`: the create call returned no error

  function Key(e: Event): string {
    e.status + e.id
  }

  function EventFor(host: string, e: Event, inspection: Inspection): ContainerEvent {
    ContainerEvent(e.status, e.id, e.from, e.time, host,
                   if inspection.Inspected? then Some(inspection.container) else None)
  }

  /** The call as a function of what it meets: the lock, the inspection and the create call. */
  function HandleOutcome(host: string, e: Event, locked: bool, inspection: Inspection, created: bool): Outcome {
    if e.from == SIMULATED then Skipped
    else if locked then Suppressed
    else if inspection.InspectError? then InspectFailed
    else Sent(EventFor(host, e, inspection), created)
  }

  /** The key set of the `locks` package. */
  class Locker {
    var held: set<string>

    constructor ()
      ensures held == {}
    {
      held := {};
    }

    method Lock(key: string) returns (ok: bool)
      modifies this
      ensures ok == (key !in old(held)) && held == old(held) + {key}
    {
      ok := key !in held;
      held := held + {key};
    }

    method Unlock(key: string)
      modifies this
      ensures held == old(held) - {key}
    {
      held := held - {key};
    }
  }

  /** `SendToRancherHandler.Handle` run on its own: every exit path leaves the locks as they were, and an
      event is sent with the inspection of its container unless the container is gone. */
  method Handle(locker: Locker, host: string, e: Event, inspection: Inspection, created: bool)
    returns (outcome: Outcome)
    modifies locker
    ensures locker.held == old(locker.held)
    ensures outcome == HandleOutcome(host, e, Key(e) in old(locker.held), inspection, created)
    ensures outcome.Skipped? <==> e.from == SIMULATED
    ensures outcome.Suppressed? <==> e.from != SIMULATED && e.status + e.id in old(locker.held)
    ensures outcome.Sent? <==>
            e.from != SIMULATED && e.status + e.id !in old(locker.held) && !inspection.InspectError?
    ensures outcome.Sent? ==>
              && outcome.ok == created && outcome.event.reportedHostUuid == host
              && outcome.event.externalStatus == e.status && outcome.event.externalId == e.id
              && outcome.event.externalFrom == e.from && outcome.event.externalTimestamp == e.time
              && outcome.event.dockerInspect == match inspection case Inspected(x) => Some(x) case _ => None
  {
    if e.from == SIMULATED {
      return Skipped;
    }
    var ok := locker.Lock(Key(e));
    if !ok {
      return Suppressed;
    }
    if inspection.InspectError? {
      outcome := InspectFailed;
    } else {
      outcome := Sent(EventFor(host, e, inspection), created);
    }
    locker.Unlock(Key(e));
  }

  // ----- the handled statuses ------------------------------------------------------------------------

  const HANDLED: set<string> := {"start", "stop", "die", "kill", "destroy"}

  function Registered(handlers: map<string, nat>, status: string): nat {
    if status in handlers then handlers[status] else 0
  }

  /** `getHandlersFn`: the number of handlers registered for each status. */
  method GetHandlers(rancherClient: bool) returns (handlers: map<string, nat>)
    ensures handlers.Keys == (if rancherClient then HANDLED else {})
    ensures forall status | status in handlers :: handlers[status] == 1
  {
    handlers := map[];
    if rancherClient {
      handlers := handlers["start" := Registered(handlers, "start") + 1];
      handlers := handlers["stop" := 1];
      handlers := handlers["die" := 1];
      handlers := handlers["kill" := 1];
      handlers := handlers["destroy" := 1];
    }
  }

  ghost predicate PrefixFree(statuses: set<string>) {
    forall a, b | a in statuses && b in statuses && a <= b :: a == b
  }

  /** The lock key `status + id` identifies status and container. */
  ghost predicate KeysIdentify(statuses: set<string>) {
    forall d: Event, e: Event | d.status in statuses && e.status in statuses && Key(d) == Key(e) ::
      d.status == e.status && d.id == e.id
  }

  /** Concatenated keys identify their parts exactly when no status is a prefix of another one. */
  lemma KeysIdentifyIffPrefixFree(statuses: set<string>)
    ensures KeysIdentify(statuses) <==> PrefixFree(statuses)
  {
    if PrefixFree(statuses) {
      forall d: Event, e: Event | d.status in statuses && e.status in statuses && Key(d) == Key(e)
        ensures d.status == e.status && d.id == e.id
      {
        SameKey(d.status, d.id, e.status, e.id);
      }
    }
    if KeysIdentify(statuses) {
      forall a, b | a in statuses && b in statuses && a <= b ensures a == b {
        var d, e := Event(a, b[|a|..], "", 0), Event(b, "", "", 0);
        assert Key(d) == b == Key(e);
      }
    }
  }

  lemma SameKey(s1: string, i1: string, s2: string, i2: string)
    requires s1 + i1 == s2 + i2
    ensures s1 <= s2 || s2 <= s1
    ensures s1 == s2 ==> i1 == i2
  {
    var k := s1 + i1;
    assert s1 == k[..|s1|] && s2 == k[..|s2|];
    assert i1 == k[|s1|..] && i2 == k[|s2|..];
  }

  lemma HandledPrefixFree()
    ensures PrefixFree(HANDLED)
  {
    forall a, b | a in HANDLED && b in HANDLED && a <= b ensures a == b {
      assert a[0] == b[0] && a[1] == b[1] && a[2] == b[2];
    }
  }
}
