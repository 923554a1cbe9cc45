// The connector's message endpoint: a sliding-window limit on sends and a bounded memory of the
// messages already sent, requests handled one at a time.
module MessageGate {
  import opened Options
  import opened SlidingLog

  const WINDOW_MS := 60_000
  const MAX_SENDS := 60
  const REMEMBERED := 10_000

  // A message sent: the key it came under, the identifier it got, and when.
  datatype Sent = Sent(key: string, messageId: string, at: int)

  // What a request brings: whether it may talk to the connector, its key if the header is there, the
  // clock, and the identifier the message would get (none if the body is bad or sending fails).
  datatype Request = Request(authorized: bool, key: Option<string>, now: int, delivery: Option<string>)

  datatype Response =
    | Unauthorized | BadKey | Duplicate(messageId: string) | Limited | Accepted(messageId: string) | Failed

  // The bounded structures, in insertion order, and the log of everything ever sent.
  datatype Gate = Gate(recent: seq<Sent>, stamps: seq<int>, log: seq<Sent>)

  datatype Turn = Turn(gate: Gate, response: Response)

  predicate IsKey(key: Option<string>) {
    key.Some? && 8 <= |key.value| <= 160
  }

  /** The position of `key`, or the length. */
  function IndexOf(recent: seq<Sent>, key: string): (i: nat)
    ensures i <= |recent| && (i < |recent| ==> recent[i].key == key)
    ensures forall j :: 0 <= j < i ==> recent[j].key != key
  {
    if recent == [] || recent[0].key == key then 0 else 1 + IndexOf(recent[1..], key)
  }

  function DropOld(stamps: seq<int>, now: int): seq<int> {
    if stamps != [] && now - stamps[0] > WINDOW_MS then DropOld(stamps[1..], now) else stamps
  }

  function Remember(recent: seq<Sent>, sent: Sent): seq<Sent> {
    var more := recent + [sent];
    if |more| > REMEMBERED then more[1..] else more
  }

  function Handle(gate: Gate, request: Request): Turn {
    if !request.authorized then Turn(gate, Unauthorized)
    else if !IsKey(request.key) then Turn(gate, BadKey)
    else
      var key, i := request.key.value, IndexOf(gate.recent, request.key.value);
      if i < |gate.recent| then Turn(gate, Duplicate(gate.recent[i].messageId))
      else
        var stamps := DropOld(gate.stamps, request.now);
        if |stamps| >= MAX_SENDS then Turn(gate.(stamps := stamps), Limited)
        else if request.delivery.None? then Turn(gate.(stamps := stamps), Failed)
        else
          var sent := Sent(key, request.delivery.value, request.now);
          Turn(Gate(Remember(gate.recent, sent), stamps + [request.now], gate.log + [sent]), Accepted(sent.messageId))
  }

  // ---- the handler with its module-level variables ------------------------------------

  class Connector {
    var recentMessages: seq<Sent>
    var sendTimestamps: seq<int>
    ghost var log: seq<Sent>

    ghost function State(): Gate
      reads this
    {
      Gate(recentMessages, sendTimestamps, log)
    }

    constructor ()
      ensures State() == Gate([], [], [])
    {
      recentMessages, sendTimestamps, log := [], [], [];
    }

    method PostMessage(request: Request) returns (response: Response)
      modifies this
      ensures Turn(State(), response) == Handle(old(State()), request)
    {
      if !request.authorized { return Unauthorized; }
      if !IsKey(request.key) { return BadKey; }
      var key := request.key.value;
      var i := IndexOf(recentMessages, key);
      if i < |recentMessages| { return Duplicate(recentMessages[i].messageId); }
      while sendTimestamps != [] && request.now - sendTimestamps[0] > WINDOW_MS
        invariant DropOld(sendTimestamps, request.now) == DropOld(old(sendTimestamps), request.now)
        invariant recentMessages == old(recentMessages) && log == old(log)
        decreases |sendTimestamps|
      {
        sendTimestamps := sendTimestamps[1..];
      }
      if |sendTimestamps| >= MAX_SENDS { return Limited; }
      if request.delivery.None? { return Failed; }
      sendTimestamps := sendTimestamps + [request.now];
      var sent := Sent(key, request.delivery.value, request.now);
      recentMessages := recentMessages + [sent];
      if |recentMessages| > REMEMBERED {
        recentMessages := recentMessages[1..];
      }
      log := log + [sent];
      response := Accepted(sent.messageId);
    }
  }

  // ---- the bounded structures against the full log ------------------------------------

  function Times(log: seq<Sent>): (times: seq<int>)
    ensures |times| == |log|
  {
    seq(|log|, i requires 0 <= i < |log| => log[i].at)
  }

  /** The last `n` entries, or all of them. */
  function Last<T>(log: seq<T>, n: nat): seq<T> {
    if |log| <= n then log else log[|log| - n..]
  }

  /** The stamps are the log's last times, and the others are older than the window. */
  ghost predicate KeepsTheWindow(stamps: seq<int>, times: seq<int>, now: int) {
    && |stamps| <= |times| && |stamps| <= MAX_SENDS
    && stamps == times[|times| - |stamps|..]
    && forall i :: 0 <= i < |times| - |stamps| ==> now - times[i] > WINDOW_MS
  }

  /** Sends under one key are more than the memory apart. */
  ghost predicate KeysFarApart(log: seq<Sent>) {
    forall i, j :: 0 <= i < j < |log| && log[i].key == log[j].key ==> j - i > REMEMBERED
  }

  ghost predicate Inv(gate: Gate, now: int) {
    var times := Times(gate.log);
    && Sorted(times) && (forall i :: 0 <= i < |times| ==> times[i] <= now)
    && KeepsTheWindow(gate.stamps, times, now)
    && Spaced(times, MAX_SENDS, WINDOW_MS + 1)
    && gate.recent == Last(gate.log, REMEMBERED)
    && KeysFarApart(gate.log)
  }

  lemma {:induction false} DropKeepsTheWindow(stamps: seq<int>, times: seq<int>, now: int)
    requires KeepsTheWindow(stamps, times, now)
    ensures KeepsTheWindow(DropOld(stamps, now), times, now)
    decreases |stamps|
  {
    if stamps != [] && now - stamps[0] > WINDOW_MS {
      assert stamps[0] == times[|times| - |stamps|];
      DropKeepsTheWindow(stamps[1..], times, now);
    }
  }

  lemma SendKeepsTheWindow(stamps: seq<int>, times: seq<int>, now: int)
    requires KeepsTheWindow(stamps, times, now) && |stamps| < MAX_SENDS
    requires Spaced(times, MAX_SENDS, WINDOW_MS + 1)
    ensures KeepsTheWindow(stamps + [now], times + [now], now)
    ensures Spaced(times + [now], MAX_SENDS, WINDOW_MS + 1)
  {
  }

  lemma RememberKeepsTheLast(log: seq<Sent>, sent: Sent)
    requires KeysFarApart(log) && forall x :: x in Last(log, REMEMBERED) ==> x.key != sent.key
    ensures Remember(Last(log, REMEMBERED), sent) == Last(log + [sent], REMEMBERED)
    ensures KeysFarApart(log + [sent])
  {
  }

  lemma TimesMore(log: seq<Sent>, sent: Sent)
    ensures Times(log + [sent]) == Times(log) + [sent.at]
  {
  }

  lemma SendKeepsInv(gate: Gate, stamps: seq<int>, sent: Sent)
    requires Inv(gate.(stamps := stamps), sent.at) && |stamps| < MAX_SENDS
    requires forall x :: x in gate.recent ==> x.key != sent.key
    ensures Inv(Gate(Remember(gate.recent, sent), stamps + [sent.at], gate.log + [sent]), sent.at)
  {
    TimesMore(gate.log, sent);
    SendKeepsTheWindow(stamps, Times(gate.log), sent.at);
    SortedMore(Times(gate.log), sent.at);
    RememberKeepsTheLast(gate.log, sent);
  }

  lemma HandleKeepsInv(gate: Gate, before: int, request: Request)
    requires Inv(gate, before) && before <= request.now
    ensures Inv(Handle(gate, request).gate, request.now)
  {
    DropKeepsTheWindow(gate.stamps, Times(gate.log), request.now);
    if Handle(gate, request).response.Accepted? {
      SendKeepsInv(gate, DropOld(gate.stamps, request.now),
                   Sent(request.key.value, request.delivery.value, request.now));
    }
  }

  // ---- runs ---------------------------------------------------------------------------

  const START := Gate([], [], [])

  function Serve(gate: Gate, requests: seq<Request>): Gate {
    if requests == [] then gate else Handle(Serve(gate, requests[..|requests| - 1]), requests[|requests| - 1]).gate
  }

  ghost predicate InOrder(requests: seq<Request>) {
    forall i, j :: 0 <= i <= j < |requests| ==> requests[i].now <= requests[j].now
  }

  lemma {:induction false} ServeKeepsInv(requests: seq<Request>, now: int)
    requires InOrder(requests) && forall i :: 0 <= i < |requests| ==> requests[i].now <= now
    ensures Inv(Serve(START, requests), now)
    decreases |requests|
  {
    if requests != [] {
      var init, last := requests[..|requests| - 1], requests[|requests| - 1];
      ServeKeepsInv(init, last.now);
      HandleKeepsInv(Serve(START, init), last.now, last);
    }
  }

  /** For a clock that does not go back: no closed interval of 60,000 ms holds more than 60 sends. */
  lemma AtMostSixtyAMinute(requests: seq<Request>, lo: int)
    requires InOrder(requests)
    ensures CountIn(Times(Serve(START, requests).log), lo, lo + WINDOW_MS + 1) <= MAX_SENDS
  {
    ServeKeepsInv(requests, if requests == [] then 0 else requests[|requests| - 1].now);
    AtMostInWindow(Times(Serve(START, requests).log), MAX_SENDS, WINDOW_MS + 1, lo);
  }

  /** A key among the last 10,000 sent is answered with the identifier it got, and not sent again. */
  lemma {:induction false} RememberedKeysAreNotSentAgain(requests: seq<Request>, request: Request, i: nat)
    requires InOrder(requests) && request.authorized && IsKey(request.key)
    requires var log := Serve(START, requests).log;
             i < |log| && |log| - i <= REMEMBERED && log[i].key == request.key.value
    ensures var gate := Serve(START, requests);
            Handle(gate, request) == Turn(gate, Duplicate(gate.log[i].messageId))
  {
    var gate := Serve(START, requests);
    ServeKeepsInv(requests, if requests == [] then 0 else requests[|requests| - 1].now);
    var first := if |gate.log| <= REMEMBERED then 0 else |gate.log| - REMEMBERED;
    assert gate.recent[i - first] == gate.log[i];
    var found := IndexOf(gate.recent, request.key.value);
    assert gate.recent[found] == gate.log[first + found];
  }

  /** Two sends under one key have at least 10,000 others between them, and the memory is exactly the
      last 10,000 sends. */
  lemma TheMemoryIsExact(requests: seq<Request>, i: nat, j: nat)
    requires InOrder(requests)
    ensures var gate := Serve(START, requests);
            && gate.recent == Last(gate.log, REMEMBERED)
            && (i < j < |gate.log| && gate.log[i].key == gate.log[j].key ==> j - i > REMEMBERED)
  {
  }

  lemma {:induction false} DropStopsInside(stamps: seq<int>, now: int)
    ensures DropOld(stamps, now) != [] ==> now - DropOld(stamps, now)[0] <= WINDOW_MS
    decreases |stamps|
  {
    if stamps != [] && now - stamps[0] > WINDOW_MS {
      DropStopsInside(stamps[1..], now);
    }
  }

  /** A message under a fresh key is refused for the limit exactly when the sixtieth send before it
      is no more than 60,000 ms old. */
  lemma {:induction false} LimitedIff(requests: seq<Request>, request: Request)
    requires InOrder(requests) && forall i :: 0 <= i < |requests| ==> requests[i].now <= request.now
    requires request.authorized && IsKey(request.key)
    requires var gate := Serve(START, requests); IndexOf(gate.recent, request.key.value) == |gate.recent|
    ensures var gate := Serve(START, requests);
            Handle(gate, request).response.Limited? <==>
            |gate.log| >= MAX_SENDS && request.now - gate.log[|gate.log| - MAX_SENDS].at <= WINDOW_MS
  {
    var gate := Serve(START, requests);
    ServeKeepsInv(requests, request.now);
    DropKeepsTheWindow(gate.stamps, Times(gate.log), request.now);
    DropStopsInside(gate.stamps, request.now);
    var stamps, times := DropOld(gate.stamps, request.now), Times(gate.log);
    if |stamps| >= MAX_SENDS {
      assert stamps[0] == times[|times| - MAX_SENDS];
    } else if |times| >= MAX_SENDS {
      assert request.now - times[|times| - MAX_SENDS] > WINDOW_MS;
    }
  }
}
