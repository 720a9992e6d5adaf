/** The list of parked vehicles: every Active session, latest entry first. */
module SessionController {
  import opened Models
  import opened Seqs

  function EntryKey(s: Session): int {
    s.entryTime
  }

  predicate IsActive(s: Session) {
    s.status == Active
  }

  /** `getActiveSessions`: the Active sessions sorted by entry time, latest
      first; each Active session is listed as often as it is stored. */
  function ActiveSessions(sessions: seq<Session>): (r: seq<Session>)
    ensures forall s :: s in r <==> s in sessions && s.status == Active
    ensures multiset(r) == multiset(Filter(sessions, IsActive))
    ensures |r| == |Filter(sessions, IsActive)|
    ensures SortedDesc(r, EntryKey)
  {
    var active := Filter(sessions, IsActive);
    var r := SortDesc(active, EntryKey);
    SortDescSameElements(active, EntryKey);
    r
  }

  /** Appending an Active session adds it to the list; appending any other
      session leaves the listed multiset as it was. */
  lemma ActiveSessionsAfterAppend(sessions: seq<Session>, s: Session)
    ensures multiset(ActiveSessions(sessions + [s])) ==
            multiset(ActiveSessions(sessions)) + (if s.status == Active then multiset{s} else multiset{})
  {
    FilterAppend(sessions, [s], IsActive);
  }
}
