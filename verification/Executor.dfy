/** Supervision of one submitted prompt: poll until it ends or the deadline passes.

    The clock and the client's answers are arbitrary. */
module Executor {
  import opened Prelude

  datatype PromptState = Running | Succeeded | Failed | Cancelled

  datatype Status = Status(state: PromptState, errorNode: Option<string>) {
    predicate Pending() { state.Running? }
  }

  datatype Outcome = Returned(status: Status) | NodeFailed(node: string) | JobCancelled | TimedOut | ClientRaised

  const WAIT: real := 0.25

  /** What one execution meets: the clock when the deadline is set and before each poll, and
      each poll's answer, None when the client raises. */
  datatype Circumstances = Circumstances(
    submits: bool, start: real, clock: nat -> real, answers: nat -> Option<Status>, cancels: bool)
  {
    ghost predicate ClockAdvances() {
      start <= clock(0) && forall n: nat :: clock(n) + WAIT <= clock(n + 1)
    }
  }

  /** Some poll would be the last: late, unanswered or about a prompt that has ended. */
  ghost predicate Halts(cx: Circumstances, timeout: real) {
    exists n :: LastAt(cx, timeout, n)
  }

  ghost predicate LastAt(cx: Circumstances, timeout: real, n: nat) {
    cx.clock(n) >= cx.start + timeout || cx.answers(n).None? || !cx.answers(n).value.Pending()
  }

  /** A node without a name, or with an empty one, is reported as unknown. */
  function NodeName(node: Option<string>): string {
    if node.GetOr("") == "" then "unknown-node" else node.value
  }

  function Verdict(answer: Option<Status>): Outcome
    requires answer.Some? ==> !answer.value.Pending()
  {
    match answer
    case None => ClientRaised
    case Some(s) =>
      if s.state == Succeeded then Returned(s)
      else if s.state == Failed then NodeFailed(NodeName(s.errorNode))
      else JobCancelled
  }

  /** The polls made, whether a cancellation was asked for, and the outcome. */
  datatype Trace = Trace(polls: nat, cancelled: bool, outcome: Outcome)

  ghost predicate Waited(cx: Circumstances, timeout: real, n: nat) {
    forall k | 0 <= k < n :: cx.clock(k) < cx.start + timeout && cx.answers(k).Some? && cx.answers(k).value.Pending()
  }

  /** Every poll but the last found the prompt pending in time; the last one decided, or the
      deadline had passed and the prompt was cancelled. */
  ghost predicate Ends(cx: Circumstances, timeout: real, t: Trace) {
    if !cx.submits then t == Trace(0, false, ClientRaised)
    else if t.cancelled then
      && Waited(cx, timeout, t.polls) && cx.clock(t.polls) >= cx.start + timeout
      && t.outcome == (if cx.cancels then TimedOut else ClientRaised)
    else
      && t.polls > 0 && Waited(cx, timeout, t.polls - 1) && cx.clock(t.polls - 1) < cx.start + timeout
      && var last := cx.answers(t.polls - 1);
         && (last.Some? ==> !last.value.Pending()) && t.outcome == Verdict(last)
  }

  class ComfyClient {
    const cx: Circumstances
    var polls: nat
    var cancelled: bool

    constructor (cx: Circumstances)
      ensures this.cx == cx && polls == 0 && !cancelled
    {
      this.cx := cx;
      polls, cancelled := 0, false;
    }

    method Poll() returns (answer: Option<Status>)
      modifies this`polls
      ensures answer == cx.answers(old(polls)) && polls == old(polls) + 1
    {
      answer := cx.answers(polls);
      polls := polls + 1;
    }

    method Cancel() returns (done: bool)
      modifies this`cancelled
      ensures cancelled && done == cx.cancels
    {
      cancelled := true;
      done := cx.cancels;
    }
  }

  /** One prompt from submission to its outcome. */
  method Execute(client: ComfyClient, timeout: real) returns (outcome: Outcome)
    requires client.polls == 0 && !client.cancelled && (client.cx.submits ==> Halts(client.cx, timeout))
    modifies client
    ensures Ends(client.cx, timeout, Trace(client.polls, client.cancelled, outcome))
  {
    var cx := client.cx;
    if !cx.submits { return ClientRaised; }
    var deadline := cx.start + timeout;
    ghost var last: nat :| LastAt(cx, timeout, last);
    while cx.clock(client.polls) < deadline
      invariant !client.cancelled && Waited(cx, timeout, client.polls) && client.polls <= last
      decreases last - client.polls
    {
      var status := client.Poll();
      if status.None? { return ClientRaised; }
      if status.value.state == Succeeded { return Returned(status.value); }
      if status.value.state == Failed { return NodeFailed(NodeName(status.value.errorNode)); }
      if status.value.state == Cancelled { return JobCancelled; }
    }
    var done := client.Cancel();
    return if done then TimedOut else ClientRaised;
  }

  /** The loop ends exactly when some poll would be the last. */
  lemma EndsExactlyWhenItHalts(cx: Circumstances, timeout: real)
    requires cx.submits
    ensures Halts(cx, timeout) <==> exists t :: Ends(cx, timeout, t)
  {
    if Halts(cx, timeout) {
      var n := FirstLast(cx, timeout);
      if cx.clock(n) >= cx.start + timeout {
        assert Ends(cx, timeout, Trace(n, true, if cx.cancels then TimedOut else ClientRaised));
      } else {
        assert Ends(cx, timeout, Trace(n + 1, false, Verdict(cx.answers(n))));
      }
    }
    if t :| Ends(cx, timeout, t) {
      assert LastAt(cx, timeout, if t.cancelled then t.polls else t.polls - 1);
    }
  }

  lemma FirstLast(cx: Circumstances, timeout: real) returns (n: nat)
    requires Halts(cx, timeout)
    ensures LastAt(cx, timeout, n) && Waited(cx, timeout, n)
  {
    ghost var last: nat :| LastAt(cx, timeout, last);
    n := 0;
    while !LastAt(cx, timeout, n)
      invariant Waited(cx, timeout, n) && n <= last
      decreases last - n
    {
      n := n + 1;
    }
  }

  /** A clock that gains each wait halts every execution. */
  lemma AdvancingClockHalts(cx: Circumstances, timeout: real)
    requires cx.ClockAdvances()
    ensures Halts(cx, timeout)
  {
    var n: nat := if timeout <= 0.0 then 0 else (timeout / WAIT).Floor + 1;
    ClockAfter(cx, n);
    assert WAIT * n as real >= timeout;
    assert LastAt(cx, timeout, n);
  }

  lemma {:induction false} ClockAfter(cx: Circumstances, n: nat)
    requires cx.ClockAdvances()
    ensures cx.clock(n) >= cx.start + WAIT * n as real
  {
    if n == 0 {
    } else {
      ClockAfter(cx, n - 1);
    }
  }

  /** However the client answers, an execution polls fewer than four times a second of its
      timeout and once more, and asks for a cancellation only after the deadline. */
  lemma PollsAreBounded(cx: Circumstances, timeout: real, t: Trace)
    requires cx.ClockAdvances() && timeout >= 0.0 && Ends(cx, timeout, t)
    ensures WAIT * t.polls as real < timeout + WAIT
    ensures t.cancelled ==> cx.clock(t.polls) - cx.start >= timeout
  {
    if t.polls > 0 { ClockAfter(cx, t.polls - 1); }
  }

  /** The circumstances decide the trace: the first poll that is late, raises or finds the
      prompt ended is the last, and says how. */
  lemma OneEnd(cx: Circumstances, timeout: real, t: Trace, u: Trace)
    requires Ends(cx, timeout, t) && Ends(cx, timeout, u)
    ensures t == u
  {
    if cx.submits {
      if t.polls < u.polls {
        NotBefore(cx, timeout, t, u);
      } else if u.polls < t.polls {
        NotBefore(cx, timeout, u, t);
      }
    }
  }

  lemma NotBefore(cx: Circumstances, timeout: real, t: Trace, u: Trace)
    requires cx.submits && Ends(cx, timeout, t) && t.polls < u.polls
    ensures !Ends(cx, timeout, u)
  {
  }

  /** What each of the four states of a prompt comes to. */
  predicate Says(answer: Option<Status>, outcome: Outcome) {
    match answer
    case None => outcome == ClientRaised
    case Some(Status(Running, _)) => false
    case Some(Status(Succeeded, node)) => outcome == Returned(Status(Succeeded, node))
    case Some(Status(Failed, None)) => outcome == NodeFailed("unknown-node")
    case Some(Status(Failed, Some(node))) => outcome == NodeFailed(if node == "" then "unknown-node" else node)
    case Some(Status(Cancelled, _)) => outcome == JobCancelled
  }

  /** How every ended execution is told apart: by the last answer, or by the deadline. */
  lemma OutcomeExactly(cx: Circumstances, timeout: real, t: Trace)
    requires Ends(cx, timeout, t)
    ensures !cx.submits ==> t == Trace(0, false, ClientRaised)
    ensures cx.submits && !t.cancelled ==> t.polls > 0 && Says(cx.answers(t.polls - 1), t.outcome)
    ensures t.cancelled ==> cx.submits && t.outcome == if cx.cancels then TimedOut else ClientRaised
  {
  }

  /** Whatever the state, a first answer in time that the prompt is no longer running ends it. */
  lemma FirstAnswerDecides(cx: Circumstances, timeout: real, t: Trace)
    requires cx.submits && cx.clock(0) < cx.start + timeout && (cx.answers(0).Some? ==> !cx.answers(0).value.state.Running?)
    ensures Ends(cx, timeout, t) <==> t.polls == 1 && !t.cancelled && Says(cx.answers(0), t.outcome)
  {
    var first := Trace(1, false, Verdict(cx.answers(0)));
    assert Ends(cx, timeout, first);
    if Ends(cx, timeout, t) { OneEnd(cx, timeout, t, first); }
  }
}
