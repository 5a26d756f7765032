/** dimos/protocol/service/ddsservice.py: the process-wide table of DDS participants. */
module Participants {
  import opened Messages

  /** The module-level dictionary of participants by domain; made numbers them in the order made. */
  datatype Table = Table(participants: map<int, nat>, made: nat)

  /** A service starts in a domain; works: whether making a participant succeeds. */
  datatype ServiceStart = ServiceStart(domain: int, works: bool)

  function TableNext(t: Table, s: ServiceStart): Table {
    if s.domain in t.participants || !s.works then t
    else Table(t.participants[s.domain := t.made], t.made + 1)
  }

  function TableRun(ss: seq<ServiceStart>): Table {
    if ss == [] then Table(map[], 0) else TableNext(TableRun(ss[..|ss| - 1]), ss[|ss| - 1])
  }

  class ParticipantTable {
    var participants: map<int, nat>
    var made: nat

    method Start(domain: int, works: bool) returns (raised: bool)
      modifies this
      ensures Table(participants, made) == TableNext(old(Table(participants, made)), ServiceStart(domain, works))
      ensures raised == (domain !in participants) && raised == (domain !in old(participants) && !works)
      ensures participants == if raised || domain in old(participants) then old(participants)
                              else old(participants)[domain := old(made)]
    {
      if domain !in participants {
        if !works { return true; }
        participants, made := participants[domain := made], made + 1;
      }
      return false;
    }

    /** None stands for the RuntimeError of a domain without a participant. */
    method Participant(domain: int) returns (p: Option<nat>)
      ensures p == if domain in participants then Some(participants[domain]) else None
    {
      if domain !in participants { return None; }
      return Some(participants[domain]);
    }
  }

  /** No participant is ever made that is not its domain's one. */
  predicate OnePerDomain(t: Table) {
    && |t.participants| == t.made
    && (forall d :: d in t.participants ==> t.participants[d] < t.made)
    && (forall d, e :: d in t.participants && e in t.participants && t.participants[d] == t.participants[e] ==> d == e)
  }

  lemma TableStep(t: Table, s: ServiceStart)
    requires OnePerDomain(t)
    ensures OnePerDomain(TableNext(t, s))
  {
    var n := TableNext(t, s);
    if s.domain !in t.participants && s.works {
      assert n.participants.Keys == t.participants.Keys + {s.domain};
      assert |n.participants| == |n.participants.Keys| && |t.participants| == |t.participants.Keys|;
    }
  }

  /** A domain has a participant exactly if a service whose participant could be made has started in it. */
  lemma {:induction false} ParticipantIff(ss: seq<ServiceStart>, domain: int)
    ensures domain in TableRun(ss).participants <==> exists s :: s in ss && s.domain == domain && s.works
  {
    if ss != [] {
      var less, last := ss[..|ss| - 1], ss[|ss| - 1];
      assert ss == less + [last];
      ParticipantIff(less, domain);
      if last.domain == domain && last.works {
        assert last in ss;
      }
    }
  }

  /** Over all services of the process each domain has at most one participant, whose identity never
      changes. */
  lemma {:induction false} ParticipantsStay(ss: seq<ServiceStart>, k: nat, domain: int)
    requires k <= |ss|
    ensures OnePerDomain(TableRun(ss))
    ensures domain in TableRun(ss[..k]).participants ==>
              domain in TableRun(ss).participants
              && TableRun(ss).participants[domain] == TableRun(ss[..k]).participants[domain]
  {
    if ss == [] {
      assert ss[..k] == ss;
    } else if k == |ss| {
      ParticipantsStay(ss[..|ss| - 1], k - 1, domain);
      TableStep(TableRun(ss[..|ss| - 1]), ss[|ss| - 1]);
      assert ss[..k] == ss;
    } else {
      ParticipantsStay(ss[..|ss| - 1], k, domain);
      TableStep(TableRun(ss[..|ss| - 1]), ss[|ss| - 1]);
      assert ss[..|ss| - 1][..k] == ss[..k];
    }
  }
}
