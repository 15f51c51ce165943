/** Class SctpSidAllocator of pc/data_channel.h, and two endpoints that allocate stream ids independently. */
module SctpSids {

  datatype SslRole = SslClient | SslServer

  /** The DTLS client takes even ids from 0, the server odd ids from 1. */
  function FirstSid(role: SslRole): nat {
    if role.SslClient? then 0 else 1
  }

  predicate OfRole(sid: int, role: SslRole) {
    sid % 2 == FirstSid(role)
  }

  /** The id is the least one of the role's parity that is free; ids run up to `maxSid`. */
  ghost predicate IsLeastFree(used: set<int>, maxSid: int, role: SslRole, sid: int) {
    && 0 <= sid <= maxSid && OfRole(sid, role) && sid !in used
    && forall x :: 0 <= x < sid && OfRole(x, role) ==> x in used
  }

  class SctpSidAllocator {
    var usedSids: set<int>
    const maxSid: int

    constructor (maxSid: int)
      ensures usedSids == {} && this.maxSid == maxSid
    {
      this.maxSid := maxSid;
      usedSids := {};
    }

    predicate IsSidAvailable(sid: int)
      reads this
    {
      0 <= sid <= maxSid && sid !in usedSids
    }

    method AllocateSid(role: SslRole) returns (ok: bool, sid: int)
      modifies this
      ensures ok ==> IsLeastFree(old(usedSids), maxSid, role, sid) && usedSids == old(usedSids) + {sid}
      ensures ok ==> 0 <= sid <= maxSid && sid !in old(usedSids) && sid % 2 == if role.SslClient? then 0 else 1
      ensures ok ==> forall x :: 0 <= x < sid && x % 2 == sid % 2 ==> x in old(usedSids)
      ensures !ok ==> usedSids == old(usedSids)
      ensures !ok && role.SslClient? ==> forall x :: 0 <= x <= maxSid && x % 2 == 0 ==> x in usedSids
      ensures !ok && role.SslServer? ==> forall x :: 0 <= x <= maxSid && x % 2 == 1 ==> x in usedSids
    {
      sid := FirstSid(role);
      while sid <= maxSid && !IsSidAvailable(sid)
        invariant sid >= 0 && OfRole(sid, role)
        invariant forall x :: 0 <= x < sid && OfRole(x, role) ==> x in usedSids
        invariant usedSids == old(usedSids)
        decreases maxSid - sid
      {
        sid := sid + 2;
      }
      ok := sid <= maxSid;
      if ok {
        usedSids := usedSids + {sid};
      }
    }

    method ReserveSid(sid: int) returns (ok: bool)
      modifies this
      ensures ok <==> 0 <= sid <= maxSid && sid !in old(usedSids)
      ensures usedSids == if ok then old(usedSids) + {sid} else old(usedSids)
    {
      ok := IsSidAvailable(sid);
      if ok {
        usedSids := usedSids + {sid};
      }
    }

    method ReleaseSid(sid: int)
      modifies this
      ensures usedSids == old(usedSids) - {sid}
    {
      usedSids := usedSids - {sid};
    }
  }

  // ---- Two endpoints ----

  /** `mine` are the live ids that this endpoint allocated itself; the others in `used` it reserved. */
  datatype Endpoint = Endpoint(role: SslRole, used: set<int>, mine: set<int>)

  datatype Call = Allocate(sid: int) | Reserve(sid: int) | Release(sid: int)

  ghost predicate CallResult(e: Endpoint, maxSid: int, c: Call, e': Endpoint) {
    match c
    case Allocate(sid) =>
      IsLeastFree(e.used, maxSid, e.role, sid) && e' == e.(used := e.used + {sid}, mine := e.mine + {sid})
    case Reserve(sid) => 0 <= sid <= maxSid && sid !in e.used && e' == e.(used := e.used + {sid})
    case Release(sid) => e' == e.(used := e.used - {sid}, mine := e.mine - {sid})
  }

  /** A run of calls, by either endpoint, from two fresh endpoints of opposite roles. */
  ghost predicate Run(states: seq<(Endpoint, Endpoint)>, maxSid: int) {
    && |states| > 0
    && states[0] == (Endpoint(SslClient, {}, {}), Endpoint(SslServer, {}, {}))
    && forall i :: 0 < i < |states| ==> Next(states[i - 1], states[i], maxSid)
  }

  ghost predicate Next(s: (Endpoint, Endpoint), t: (Endpoint, Endpoint), maxSid: int) {
    || (s.1 == t.1 && exists c :: CallResult(s.0, maxSid, c, t.0))
    || (s.0 == t.0 && exists c :: CallResult(s.1, maxSid, c, t.1))
  }

  predicate OwnsItsParity(e: Endpoint) {
    e.mine <= e.used && forall sid :: sid in e.mine ==> OfRole(sid, e.role)
  }

  lemma {:induction false} RunKeepsParity(states: seq<(Endpoint, Endpoint)>, maxSid: int, i: nat)
    requires Run(states, maxSid) && i < |states|
    ensures states[i].0.role == SslClient && states[i].1.role == SslServer
    ensures OwnsItsParity(states[i].0) && OwnsItsParity(states[i].1)
  {
    if i > 0 {
      RunKeepsParity(states, maxSid, i - 1);
      assert Next(states[i - 1], states[i], maxSid);
    }
  }

  /**
   In every interleaving the ids that the client has allocated and not released are even and those of the server
   odd, so that they are disjoint.
   */
  lemma {:induction false} AllocationsNeverCollide(states: seq<(Endpoint, Endpoint)>, maxSid: int, i: nat)
    requires Run(states, maxSid) && i < |states|
    ensures forall sid :: sid in states[i].0.mine ==> sid % 2 == 0
    ensures forall sid :: sid in states[i].1.mine ==> sid % 2 == 1
    ensures states[i].0.mine !! states[i].1.mine
  {
    RunKeepsParity(states, maxSid, i);
    forall x | x in states[i].0.mine ensures x % 2 == 0 {
      assert OfRole(x, SslClient);
    }
    forall x | x in states[i].1.mine ensures x % 2 == 1 {
      assert OfRole(x, SslServer);
    }
  }
}
