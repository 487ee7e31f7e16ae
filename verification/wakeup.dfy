/** frameWake of internal/vnc/session.go under every interleaving of producers with frameLoop. */
module Wakeup {
  /** A producer updates the pending work under the lock and posts a token afterwards; frameLoop
      receives a token and takes the work afterwards. */
  datatype LoopPhase = Waiting | Received | Drawing

  datatype System = System(pending: bool, token: bool, posting: nat, loop: LoopPhase)

  datatype Step = Produce(work: bool) | Post | Receive | Take | Finish

  ghost predicate Next(s: System, step: Step, t: System) {
    match step
    case Produce(work) => t == s.(pending := s.pending || work, posting := s.posting + 1)
    case Post => s.posting > 0 && t == s.(token := true, posting := s.posting - 1)
    case Receive => s.loop == Waiting && s.token && t == s.(token := false, loop := Received)
    case Take => s.loop == Received && t == s.(pending := false, loop := if s.pending then Drawing else Waiting)
    case Finish => s.loop == Drawing && t == s.(loop := Waiting)
  }

  ghost predicate Reaches(s: System, steps: seq<Step>, t: System)
    decreases |steps|
  {
    if steps == [] then s == t
    else exists m :: Next(s, steps[0], m) && Reaches(m, steps[1..], t)
  }

  /** Pending work will be noticed: a token waits, is about to be posted, or was just received. */
  predicate Noticed(s: System) {
    s.pending ==> s.token || s.posting > 0 || s.loop == Received
  }

  lemma {:induction false} NoLostWakeup(s: System, steps: seq<Step>, t: System)
    requires Noticed(s) && Reaches(s, steps, t)
    ensures Noticed(t)
    decreases |steps|
  {
    if steps != [] {
      var m :| Next(s, steps[0], m) && Reaches(m, steps[1..], t);
      NoLostWakeup(m, steps[1..], t);
    }
  }

  /** The loop is never stuck with work: if it waits and no producer is about to post, the token that
      leads to the take is there. */
  lemma WaitingLoopIsWoken(s: System, steps: seq<Step>, t: System)
    requires !s.pending && Reaches(s, steps, t) && t.pending && t.loop == Waiting && t.posting == 0
    ensures exists m, n :: Next(t, Receive, m) && Next(m, Take, n) && n.loop == Drawing && !n.pending
  {
    NoLostWakeup(s, steps, t);
    var m := t.(token := false, loop := Received);
    var n := m.(pending := false, loop := Drawing);
    assert Next(t, Receive, m) && Next(m, Take, n);
  }
}
