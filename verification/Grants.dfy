/** Single-use confirmation grants, each for one plan fingerprint in one context and for sixty seconds. */
module Grants {
  const LIFETIME: nat := 60

  /** The context is the scope and session that confirmed, if any, reduced to a value that can be compared. */
  datatype Grant = Grant(fingerprint: string, context: int, expiresAt: int)

  datatype Event =
    | Issued(id: int, fingerprint: string, context: int, now: int)
    | Consumed(id: int, fingerprint: string, context: int, now: int)
    | Cleared

  /** The grants outstanding after some events. */
  function Outstanding(log: seq<Event>): map<int, Grant>
  {
    if |log| == 0 then map[]
    else
      var before := Outstanding(log[..|log| - 1]);
      match log[|log| - 1]
      case Issued(id, fingerprint, context, now) => before[id := Grant(fingerprint, context, now + LIFETIME)]
      case Consumed(id, _, _, _) => before - {id}
      case Cleared => map[]
  }

  class GrantBook {
    var grants: map<int, Grant>
    ghost var log: seq<Event>

    ghost predicate Valid()
      reads this
    {
      grants == Outstanding(log)
    }

    constructor ()
      ensures Valid() && log == []
    {
      grants, log := map[], [];
    }

    method Issue(id: int, fingerprint: string, context: int, now: int)
      requires Valid()
      modifies this
      ensures Valid() && log == old(log) + [Issued(id, fingerprint, context, now)]
    {
      grants := grants[id := Grant(fingerprint, context, now + LIFETIME)];
      log := log + [Issued(id, fingerprint, context, now)];
    }

    /** Takes the grant away, whether or not it fits. */
    method Consume(id: int, fingerprint: string, context: int, now: int) returns (ok: bool)
      requires Valid()
      modifies this
      ensures Valid() && log == old(log) + [Consumed(id, fingerprint, context, now)]
      ensures ok <==> exists i: nat :: Permits(old(log), i, id, fingerprint, context, now)
    {
      PermittedIffOutstanding(log, id, fingerprint, context, now);
      ok := id in grants && grants[id].fingerprint == fingerprint && grants[id].context == context
            && now <= grants[id].expiresAt;
      grants := grants - {id};
      log := log + [Consumed(id, fingerprint, context, now)];
    }

    method Clear()
      requires Valid()
      modifies this
      ensures Valid() && log == old(log) + [Cleared]
    {
      grants := map[];
      log := log + [Cleared];
    }
  }

  /** The event touches the grant of an identity. */
  predicate Touches(event: Event, id: int)
  {
    event.Cleared? || event.id == id
  }

  /** The last event that touches the identity. */
  ghost predicate LastTouch(log: seq<Event>, i: nat, id: int)
  {
    i < |log| && Touches(log[i], id) && forall j :: i < j < |log| ==> !Touches(log[j], id)
  }

  /** The last event that touches the identity issued it for this fingerprint and context, at most sixty
      seconds ago. */
  ghost predicate Permits(log: seq<Event>, i: nat, id: int, fingerprint: string, context: int, now: int)
  {
    && LastTouch(log, i, id)
    && log[i].Issued? && log[i].fingerprint == fingerprint && log[i].context == context
    && now - log[i].now <= 60
  }

  /** An outstanding grant is the last event that touches its identity. */
  lemma {:induction false} OutstandingMeans(log: seq<Event>, id: int)
    ensures id in Outstanding(log) <==> exists i: nat :: LastTouch(log, i, id) && log[i].Issued?
    ensures forall i: nat :: LastTouch(log, i, id) && log[i].Issued? ==>
                             Outstanding(log)[id] == Grant(log[i].fingerprint, log[i].context, log[i].now + 60)
  {
    if |log| > 0 {
      var n := |log| - 1;
      var shorter := log[..n];
      OutstandingMeans(shorter, id);
      forall i: nat ensures LastTouch(log, i, id) <==>
                            if Touches(log[n], id) then i == n else LastTouch(shorter, i, id)
      {
        LastTouchSnoc(log, i, id);
      }
    }
  }

  lemma LastTouchSnoc(log: seq<Event>, i: nat, id: int)
    requires |log| > 0
    ensures var n := |log| - 1;
      LastTouch(log, i, id) <==> if Touches(log[n], id) then i == n else LastTouch(log[..n], i, id)
  {
    var n := |log| - 1;
    assert i < n ==> log[..n][i] == log[i];
  }

  lemma PermittedIffOutstanding(log: seq<Event>, id: int, fingerprint: string, context: int, now: int)
    ensures (exists i: nat :: Permits(log, i, id, fingerprint, context, now)) <==>
      var grants := Outstanding(log);
      id in grants && grants[id].fingerprint == fingerprint && grants[id].context == context
        && now <= grants[id].expiresAt
  {
    hide Outstanding;
    OutstandingMeans(log, id);
    if id in Outstanding(log) {
      var i: nat :| LastTouch(log, i, id) && log[i].Issued?;
      assert Permits(log, i, id, fingerprint, context, now) <==>
        log[i].fingerprint == fingerprint && log[i].context == context && now - log[i].now <= 60;
    }
  }
}
