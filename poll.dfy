/** Polling a replica job: the status URL is requested until a reply's
    `status` is "Completed", with no bound on the number of requests. */
module Poll {
  import opened Rest

  predicate IsCompleted(r: StatusReply)
  {
    r.StatusBody? && r.status == Some("Completed")
  }

  /** A reply after which the script sleeps and asks again. */
  predicate Pending(r: StatusReply)
  {
    r.StatusBody? && r.status != Some("Completed")
  }

  /** The index of the first reply that ends the polling (a completed reply,
      or a request that raised); |replies| when every supplied reply is pending. */
  function StopIndex(replies: seq<StatusReply>): (k: nat)
    ensures k <= |replies|
    ensures forall j :: 0 <= j < k ==> Pending(replies[j])
    ensures k < |replies| ==> !Pending(replies[k])
    decreases |replies|
  {
    if replies == [] || !Pending(replies[0]) then 0 else 1 + StopIndex(replies[1..])
  }

  /** How polling ends: a completed reply (carrying its `resultUrl`), a status
      request that raised, or no end (the job stays pending for ever). */
  datatype PollResult = Done(resultUrl: Option<string>) | Raised | Forever

  /** The outcome of polling a job with these replies. */
  function Verdict(replies: seq<StatusReply>): (v: PollResult)
    ensures v.Forever? <==> forall j :: 0 <= j < |replies| ==> Pending(replies[j])
    ensures v.Raised? <==> StopIndex(replies) < |replies| && replies[StopIndex(replies)].StatusRaised?
    ensures v.Done? <==> StopIndex(replies) < |replies| && IsCompleted(replies[StopIndex(replies)])
    ensures v.Done? ==> v.resultUrl == replies[StopIndex(replies)].resultUrl
  {
    var k := StopIndex(replies);
    if k == |replies| then Forever
    else if replies[k].StatusRaised? then Raised
    else Done(replies[k].resultUrl)
  }

  /** The number of status requests issued; when polling never ends, the
      number of supplied replies consumed before the model stops following it. */
  function PollCount(replies: seq<StatusReply>): (c: nat)
    ensures c <= |replies|
    ensures forall j :: 0 <= j < c - 1 ==> Pending(replies[j])
    ensures !Verdict(replies).Forever? ==> 0 < c && !Pending(replies[c - 1])
    ensures Verdict(replies).Forever? ==> c == |replies|
  {
    var k := StopIndex(replies);
    if k == |replies| then |replies| else k + 1
  }

  /** The poll loop: one request, then, while the reply is not "Completed",
      sleep (no logical effect) and request again. */
  method PollJob(replies: seq<StatusReply>) returns (result: PollResult, polls: nat)
    ensures result == Verdict(replies) && polls == PollCount(replies)
  {
    if |replies| == 0 {
      return Forever, 0;
    }
    var reply := replies[0];
    polls := 1;
    while Pending(reply)
      invariant 1 <= polls <= |replies|
      invariant reply == replies[polls - 1]
      invariant forall j :: 0 <= j < polls - 1 ==> Pending(replies[j])
      decreases |replies| - polls
    {
      if polls == |replies| {
        return Forever, polls;
      }
      reply := replies[polls];
      polls := polls + 1;
    }
    if reply.StatusRaised? {
      result := Raised;
    } else {
      result := Done(reply.resultUrl);
    }
  }

  /** When the first "Completed" reply is at index k and every earlier reply
      was an answer, polling makes exactly k + 1 requests and ends with that reply. */
  lemma CompletedAt(replies: seq<StatusReply>, k: nat)
    requires k < |replies| && IsCompleted(replies[k])
    requires forall j :: 0 <= j < k ==> replies[j].StatusBody? && !IsCompleted(replies[j])
    ensures PollCount(replies) == k + 1
    ensures Verdict(replies) == Done(replies[k].resultUrl)
  {
  }

  /** When no supplied reply completes and none raises, polling never ends. */
  lemma NeverCompleted(replies: seq<StatusReply>)
    requires forall j :: 0 <= j < |replies| ==> Pending(replies[j])
    ensures Verdict(replies) == Forever && PollCount(replies) == |replies|
  {
  }
}
