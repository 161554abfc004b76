/** pollTranscriptionStatus: fetch the job, return its text once it is
    completed, fail once it has failed, otherwise wait five seconds and
    fetch again. The remote service is modelled by the sequence of replies
    it gives to successive fetches. */
module Polling {
  import opened Wrappers

  /** The delay between two fetches, in milliseconds. */
  const PollDelayMs := 5000

  /** One reply to the status request: the job's status and its text field
      (absent or null is None), or a request that failed. */
  datatype Snapshot = Fetched(status: string, text: Option<string>) | FetchError

  datatype PollError =
    | TranscriptionFailed   // the job reported "failed"
    | StatusRequestFailed   // the status request itself was rejected

  /** What the poller does with one reply. */
  datatype PollStep = Return(text: Option<string>) | Throw(error: PollError) | WaitAndRefetch

  /** How polling ends over the replies observed: resolved with the text
      field, rejected, or still waiting when the replies run out. */
  datatype PollOutcome = Resolved(text: Option<string>) | Rejected(error: PollError) | StillWaiting

  /** The decision taken on one reply. */
  function Step(s: Snapshot): (r: PollStep)
    ensures r.Return? <==> s.Fetched? && s.status == "completed"
    ensures r.Return? ==> r.text == s.text
    ensures r == Throw(TranscriptionFailed) <==> s.Fetched? && s.status == "failed"
    ensures r == Throw(StatusRequestFailed) <==> s.FetchError?
    ensures r.WaitAndRefetch? <==> s.Fetched? && s.status != "completed" && s.status != "failed"
  {
    match s
    case FetchError => Throw(StatusRequestFailed)
    case Fetched(status, text) =>
      if status == "completed" then Return(text)
      else if status == "failed" then Throw(TranscriptionFailed)
      else WaitAndRefetch
  }

  predicate Terminal(s: Snapshot) {
    !Step(s).WaitAndRefetch?
  }

  /** The outcome a terminal reply decides. */
  function Decided(s: Snapshot): PollOutcome
    requires Terminal(s)
  {
    match Step(s)
    case Return(text) => Resolved(text)
    case Throw(e) => Rejected(e)
  }

  /** Reference: the outcome of polling over the replies, one at a time. */
  function PollOutcomeOf(replies: seq<Snapshot>): PollOutcome
  {
    if |replies| == 0 then StillWaiting
    else if Terminal(replies[0]) then Decided(replies[0])
    else PollOutcomeOf(replies[1..])
  }

  /** Fetches replies until one is terminal. Returns the outcome, how many
      waits it made, the milliseconds those waits take, and how many
      fetches. */
  method PollTranscriptionStatus(replies: seq<Snapshot>) returns (outcome: PollOutcome, waits: nat, waitedMs: nat, fetches: nat)
    ensures waits <= |replies| && waitedMs == waits * PollDelayMs
    ensures forall i :: 0 <= i < waits ==> !Terminal(replies[i])
    ensures waits < |replies| ==> Terminal(replies[waits]) && outcome == Decided(replies[waits]) && fetches == waits + 1
    ensures waits == |replies| ==> outcome == StillWaiting && fetches == waits
    ensures outcome == PollOutcomeOf(replies)
  {
    waits, waitedMs, fetches := 0, 0, 0;
    while true
      invariant waits == fetches <= |replies| && waitedMs == waits * PollDelayMs
      invariant forall i :: 0 <= i < waits ==> !Terminal(replies[i])
      invariant PollOutcomeOf(replies[waits..]) == PollOutcomeOf(replies)
      decreases |replies| - fetches
    {
      if fetches == |replies| {
        outcome := StillWaiting;
        return;
      }
      var reply := replies[fetches];
      fetches := fetches + 1;
      match Step(reply)
      case Return(text) =>
        outcome := Resolved(text);
        return;
      case Throw(e) =>
        outcome := Rejected(e);
        return;
      case WaitAndRefetch =>
        waits := waits + 1;
        waitedMs := waitedMs + PollDelayMs;
    }
  }

  /** Reply `k` is the first terminal one. */
  predicate FirstTerminalAt(replies: seq<Snapshot>, k: nat)
  {
    k < |replies| && Terminal(replies[k]) && forall i :: 0 <= i < k ==> !Terminal(replies[i])
  }

  /** The first terminal reply decides the outcome; polling is still waiting
      exactly when no reply is terminal. */
  lemma {:induction false} FirstTerminalDecides(replies: seq<Snapshot>)
    ensures PollOutcomeOf(replies) == StillWaiting <==> forall i :: 0 <= i < |replies| ==> !Terminal(replies[i])
    ensures forall k: nat :: FirstTerminalAt(replies, k) ==> PollOutcomeOf(replies) == Decided(replies[k])
  {
    if |replies| > 0 {
      FirstTerminalDecides(replies[1..]);
      if Terminal(replies[0]) {
        forall k: nat | FirstTerminalAt(replies, k) ensures k == 0 {
        }
      } else {
        forall k: nat | FirstTerminalAt(replies, k) ensures k > 0 && FirstTerminalAt(replies[1..], k - 1) {
          assert k != 0;
          forall i | 0 <= i < k - 1 ensures !Terminal(replies[1..][i]) {
            assert replies[1..][i] == replies[i + 1];
          }
        }
        if forall i :: 0 <= i < |replies[1..]| ==> !Terminal(replies[1..][i]) {
          forall i | 0 <= i < |replies| ensures !Terminal(replies[i]) {
            if i > 0 {
              assert replies[i] == replies[1..][i - 1];
            }
          }
        }
      }
    }
  }

  /** A resolved or rejected poll was decided by some first terminal reply. */
  lemma {:induction false} SettledHasFirstTerminal(replies: seq<Snapshot>) returns (k: nat)
    requires PollOutcomeOf(replies) != StillWaiting
    ensures FirstTerminalAt(replies, k) && PollOutcomeOf(replies) == Decided(replies[k])
  {
    if Terminal(replies[0]) {
      k := 0;
    } else {
      var j := SettledHasFirstTerminal(replies[1..]);
      k := j + 1;
      forall i | 0 <= i < k ensures !Terminal(replies[i]) {
        if i > 0 {
          assert replies[i] == replies[1..][i - 1];
        }
      }
    }
  }
}
