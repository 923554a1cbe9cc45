// The connector's answers, one case after the other, for any requests served before.
module MessageAnswers {
  import opened MessageGate
  import opened Options
  import opened SlidingLog

  /** A key is a text of 8 to 160 characters. */
  ghost predicate HasKey(request: Request) {
    request.key.Some? && |request.key.value| >= 8 && |request.key.value| <= 160
  }

  /** One of the last 10,000 messages sent came under the request's key, as number `i`. */
  ghost predicate SentAs(log: seq<Sent>, request: Request, i: nat) {
    request.key.Some? && i < |log| && |log| - i <= 10_000 && log[i].key == request.key.value
  }

  ghost predicate IsNew(log: seq<Sent>, request: Request) {
    forall i: nat :: i < |log| ==> !SentAs(log, request, i)
  }

  /** Sixty messages were sent within the last 60,000 milliseconds, the ends included. */
  ghost predicate IsFull(log: seq<Sent>, now: int) {
    |log| >= 60 && log[|log| - 60].at >= now - 60_000
  }

  /** What is answered, and what it does to the log of all messages sent. */
  ghost predicate AnsweredTo(request: Request, log: seq<Sent>, response: Response, after: seq<Sent>) {
    if !request.authorized then response == Unauthorized && after == log
    else if !HasKey(request) then response == BadKey && after == log
    else if !IsNew(log, request) then
      after == log && exists i: nat :: i < |log| && SentAs(log, request, i) && response == Duplicate(log[i].messageId)
    else if IsFull(log, request.now) then response == Limited && after == log
    else match request.delivery
      case None => response == Failed && after == log
      case Some(id) => response == Accepted(id) && after == log + [Sent(request.key.value, id, request.now)]
  }

  lemma {:induction false} NewIsNotFound(requests: seq<Request>, request: Request)
    requires InOrder(requests) && IsKey(request.key) && IsNew(Serve(START, requests).log, request)
    ensures var gate := Serve(START, requests); IndexOf(gate.recent, request.key.value) == |gate.recent|
  {
    var gate := Serve(START, requests);
    TheMemoryIsExact(requests, 0, 0);
    var i := IndexOf(gate.recent, request.key.value);
    if i < |gate.recent| {
      var k := |gate.log| - |gate.recent| + i;
      assert gate.log[k] == gate.recent[i];
      assert SentAs(gate.log, request, k);
    }
  }

  /** Every request is answered by these rules, in this order, after any requests in the clock's order. */
  lemma {:induction false} AnswersAre(requests: seq<Request>, request: Request)
    requires InOrder(requests) && forall i :: 0 <= i < |requests| ==> requests[i].now <= request.now
    ensures var gate, turn := Serve(START, requests), Handle(Serve(START, requests), request);
            && AnsweredTo(request, gate.log, turn.response, turn.gate.log)
            && Serve(START, requests + [request]) == turn.gate
  {
    var gate := Serve(START, requests);
    assert (requests + [request])[..|requests|] == requests;
    if request.authorized && IsKey(request.key) {
      if i: nat :| i < |gate.log| && SentAs(gate.log, request, i) {
        RememberedKeysAreNotSentAgain(requests, request, i);
      } else {
        NewIsNotFound(requests, request);
        LimitedIff(requests, request);
      }
    }
  }

  /** In any minute, both ends included, at most sixty messages are sent. */
  lemma SixtyAMinute(requests: seq<Request>, lo: int)
    requires InOrder(requests)
    ensures CountIn(Times(Serve(START, requests).log), lo, lo + 60_001) <= 60
  {
    AtMostSixtyAMinute(requests, lo);
  }
}
