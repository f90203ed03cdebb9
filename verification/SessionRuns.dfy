// The service object taken through a whole run, so that what is proved of runs holds of it.
module SessionRuns {
  import opened Lifecycle
  import opened LifecycleRuns
  import opened SessionStore

  /** Serve a sequence of requests, each at its time. Whatever run `ws` they amount to, the object
      ends in its last world, has answered every request as that run does, and satisfies the
      invariant. */
  method Play(t: Terms, xs: seq<Timed>, ghost ws: seq<World>)
    returns (service: InterviewService, replies: seq<Reply>)
    requires IsRun(t, ws, xs)
    ensures fresh(service) && service.terms == t
    ensures service.Value() == ws[|xs|].state && Invariant(ws[|xs|])
    ensures |replies| == |xs|
    ensures forall k :: 0 <= k < |xs| ==> replies[k] == Apply(t, ws[k].state, xs[k].now, xs[k].step).reply
  {
    service := new InterviewService(t);
    replies := [];
    for i := 0 to |xs|
      invariant fresh(service) && fresh(service.candidate) && service.terms == t
      invariant service.session != null ==> fresh(service.session)
      invariant service.Value() == ws[i].state
      invariant |replies| == i
      invariant forall k :: 0 <= k < i ==> replies[k] == Apply(t, ws[k].state, xs[k].now, xs[k].step).reply
    {
      var reply := Answer(service, xs[i]);
      replies := replies + [reply];
    }
    RunInvariant(t, ws, xs, |xs|);
  }

  /** One request, candidate-facing or from the engine. */
  method Answer(service: InterviewService, x: Timed) returns (reply: Reply)
    modifies service, service.session, service.candidate
    ensures service.session == old(service.session) || (old(service.session) == null && fresh(service.session))
    ensures Result(service.Value(), reply) == Apply(service.terms, old(service.Value()), x.now, x.step)
  {
    if CandidateFacing(x.step) {
      reply := service.Serve(x.step, x.now);
    } else {
      reply := service.Record(x.step, x.now);
    }
  }
}
