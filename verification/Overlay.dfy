/** The multicast overlay: a source, rendezvous points (RPs) that relay for the hosts of their
    administrative domain (AD), and endhosts. What the source's handlers do to its two tables. */
module Overlay {
  import opened Basics

  /** An address in its canonical form; the handlers look only at the AD in it. */
  datatype Dag = Dag(ad: string, hid: string, sid: string)

  /** The tables of `MulticastSource`: each registered host with its RP (`None` for NULL), and
      the registered RPs. */
  datatype Source = Source(hosts: map<Dag, Option<Dag>>, rps: set<Dag>)

  /** An RP in the host's AD, or `None` if there is none: the search in `EndhostJoin`. */
  predicate IsRpFor(s: Source, host: Dag, rp: Option<Dag>) {
    match rp
    case None => forall r :: r in s.rps ==> r.ad != host.ad
    case Some(r) => r in s.rps && r.ad == host.ad
  }

  /** `EndhostJoin`: a host that is already registered keeps its entry. */
  function HostJoined(s: Source, host: Dag, rp: Option<Dag>): Source {
    if host in s.hosts then s else s.(hosts := s.hosts[host := rp])
  }

  function HostLeft(s: Source, host: Dag): Source {
    s.(hosts := s.hosts - {host})
  }

  /** The hosts an RP takes over when it joins: those of its AD that have none. */
  function TakenOver(s: Source, rp: Dag): set<Dag> {
    set h | h in s.hosts && s.hosts[h] == None && h.ad == rp.ad
  }

  function RpJoined(s: Source, rp: Dag): Source {
    Source(map h | h in s.hosts :: if h in TakenOver(s, rp) then Some(rp) else s.hosts[h], s.rps + {rp})
  }

  /** `RPLeave` clears by AD, not by RP: the hosts of every RP in the AD of the one that leaves. */
  function RpLeft(s: Source, rp: Dag): Source {
    if rp !in s.rps then s
    else Source(map h | h in s.hosts ::
                  if s.hosts[h].Some? && s.hosts[h].value.ad == rp.ad then None else s.hosts[h],
                s.rps - {rp})
  }

  /** The hosts whose RP is `rp` (`BuildEndHostListForRP`). */
  function AssignedTo(s: Source, rp: Dag): set<Dag> {
    set h | h in s.hosts && s.hosts[h] == Some(rp)
  }

  /** Where a command for `host` is sent: to its RP, or to itself. */
  function Target(s: Source, host: Dag): Dag
    requires host in s.hosts
  {
    if s.hosts[host].Some? then s.hosts[host].value else host
  }

  /** The recipients of a command (`BuildControlRecvList`). */
  function Recipients(s: Source): set<Dag> {
    set h | h in s.hosts :: Target(s, h)
  }

  /** What every handler keeps: a host's RP has an address that is registered, and it is in the
      host's own AD. */
  predicate Sound(s: Source) {
    forall h :: h in s.hosts && s.hosts[h].Some? ==>
      s.hosts[h].value in s.rps && s.hosts[h].value.ad == h.ad
  }

  datatype Request =
    | JoinHost(host: Dag, found: Option<Dag>)
    | LeaveHost(host: Dag)
    | JoinRp(rp: Dag)
    | LeaveRp(rp: Dag)

  predicate Answers(s: Source, q: Request) {
    q.JoinHost? ==> IsRpFor(s, q.host, q.found)
  }

  function Handle(s: Source, q: Request): Source {
    match q
    case JoinHost(host, rp) => HostJoined(s, host, rp)
    case LeaveHost(host) => HostLeft(s, host)
    case JoinRp(rp) => RpJoined(s, rp)
    case LeaveRp(rp) => RpLeft(s, rp)
  }

  predicate Handled(trace: seq<Source>, requests: seq<Request>) {
    && |trace| == |requests| + 1
    && trace[0] == Source(map[], {})
    && forall i :: 0 <= i < |requests| ==>
         Answers(trace[i], requests[i]) && trace[i + 1] == Handle(trace[i], requests[i])
  }

  lemma HandleKeepsSound(s: Source, q: Request)
    requires Sound(s) && Answers(s, q)
    ensures Sound(Handle(s, q))
  {
  }

  /** What each request does to the entry of any one host: joining enters a host only if it is not
      there, and nothing but leaving takes it out. */
  lemma EntryAfter(s: Source, q: Request, h: Dag)
    ensures h in Handle(s, q).hosts <==> (h in s.hosts && q != LeaveHost(h)) || (q.JoinHost? && q.host == h)
    ensures h in s.hosts && (q.JoinHost? || (q.LeaveHost? && q.host != h)) ==> Handle(s, q).hosts[h] == s.hosts[h]
    ensures h !in s.hosts && q.JoinHost? && q.host == h ==> Handle(s, q).hosts[h] == q.found
    ensures h in s.hosts && q.JoinRp? ==>
              Handle(s, q).hosts[h] == if s.hosts[h] == None && h.ad == q.rp.ad then Some(q.rp) else s.hosts[h]
    ensures h in s.hosts && q.LeaveRp? ==>
              Handle(s, q).hosts[h] == if q.rp in s.rps && s.hosts[h].Some? && s.hosts[h].value.ad == q.rp.ad then None
                                       else s.hosts[h]
    ensures Handle(s, q).rps == if q.JoinRp? then s.rps + {q.rp} else if q.LeaveRp? then s.rps - {q.rp} else s.rps
  {
  }

  /** Whatever requests arrive in whatever order, with any number of RPs per AD: after each of
      them every host's RP is a registered RP of its own AD. */
  lemma {:induction false} AlwaysSound(trace: seq<Source>, requests: seq<Request>, i: nat)
    requires Handled(trace, requests) && i < |trace|
    ensures Sound(trace[i])
  {
    if i > 0 {
      AlwaysSound(trace, requests, i - 1);
      HandleKeepsSound(trace[i - 1], requests[i - 1]);
    }
  }
}
