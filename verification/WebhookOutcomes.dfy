// What the provider's webhook answers and records, and what its events leave on a document, for
// whole sequences of deliveries.
module WebhookOutcomes {
  import opened FiscalWebhook
  import opened Options

  // ---- one delivery -------------------------------------------------------------------

  /** A canceled document takes no event, and an authorized one only a cancellation. */
  ghost predicate Refuses(status: Status, kind: Kind) {
    status == IsCanceled || (status == IsAuthorized && kind != Canceled)
  }

  ghost predicate Recorded(db: Db, delivery: Delivery) {
    EventKey(delivery.credential, delivery.event.id) in db.events
  }

  /** What the delivery of an event not recorded before is recorded as. */
  ghost function MarkOf(db: Db, event: Event): Mark {
    if event.documentId !in db.documents then DocumentNotFound
    else if Refuses(db.documents[event.documentId].status, event.kind) then NonMonotonic
    else Processed
  }

  /** A recorded event is a duplicate and changes nothing. A fresh one is recorded, ignored if its document
      is unknown or refuses it, and with an unknown document nothing else changes. */
  lemma AnswerIs(db: Db, delivery: Delivery)
    ensures var after, reply := Receive(db, delivery).db, Receive(db, delivery).reply;
            var event, key := delivery.event, EventKey(delivery.credential, delivery.event.id);
            && reply.duplicate == Recorded(db, delivery)
            && (reply.duplicate ==> after == db && !reply.ignored)
            && (!reply.duplicate ==>
                && after.events == db.events[key := MarkOf(db, event)]
                && reply.ignored == (MarkOf(db, event) != Processed)
                && (event.documentId !in db.documents ==>
                    after.documents == db.documents && after.operations == db.operations))
  {
  }

  // ---- what a document shows in the end -----------------------------------------------

  ghost predicate IsFirst(deliveries: seq<Delivery>, k: nat, kind: Kind) {
    k < |deliveries| && deliveries[k].event.kind == kind && forall i :: 0 <= i < k ==> deliveries[i].event.kind != kind
  }

  ghost predicate Brings(deliveries: seq<Delivery>, kind: Kind) {
    exists k :: 0 <= k < |deliveries| && deliveries[k].event.kind == kind
  }

  lemma Initials(deliveries: seq<Delivery>, kind: Kind)
    requires deliveries != []
    ensures var init, last := deliveries[..|deliveries| - 1], deliveries[|deliveries| - 1];
            Brings(deliveries, kind) <==> Brings(init, kind) || last.event.kind == kind
  {
    var n := |deliveries| - 1;
    assert forall i :: 0 <= i < n ==> deliveries[..n][i] == deliveries[i];
    if Brings(deliveries[..n], kind) {
      var k :| 0 <= k < n && deliveries[..n][k].event.kind == kind;
      assert deliveries[k].event.kind == kind;
    }
  }

  /** The first cancellation dates a document that was not canceled, clears its error, leaves the rest as it
      then was, and is the last to touch it. */
  lemma {:induction false} FirstCancellationStays(document: Document, deliveries: seq<Delivery>, k: nat)
    requires document.status != IsCanceled && IsFirst(deliveries, k, Canceled)
    ensures AdvancedBy(document, deliveries) == AdvancedBy(document, deliveries[..k]).(
              status := IsCanceled, canceledAt := Some(deliveries[k].now), updatedAt := deliveries[k].now,
              errorMessage := None)
    decreases |deliveries|
  {
    var n := |deliveries| - 1;
    if k < n {
      assert IsFirst(deliveries[..n], k, Canceled) && deliveries[..n][..k] == deliveries[..k];
      FirstCancellationStays(document, deliveries[..n], k);
    } else {
      NotYetCanceled(document, deliveries[..n]);
    }
  }

  lemma {:induction false} NotYetCanceled(document: Document, deliveries: seq<Delivery>)
    requires document.status != IsCanceled && !Brings(deliveries, Canceled)
    ensures AdvancedBy(document, deliveries).status != IsCanceled
    ensures AdvancedBy(document, deliveries).canceledAt == document.canceledAt
    decreases |deliveries|
  {
    if deliveries != [] {
      Initials(deliveries, Canceled);
      NotYetCanceled(document, deliveries[..|deliveries| - 1]);
      var last := deliveries[|deliveries| - 1];
      assert last.event.kind != Canceled;
    }
  }

  lemma AuthorizedNow(document: Document, event: Event, now: int)
    requires document.status != IsCanceled && document.status != IsAuthorized && event.kind == Authorized
    ensures var after := Advanced(document, event, now);
            && after.status == IsAuthorized && after.updatedAt == now && after.errorMessage == None
            && after.canceledAt == document.canceledAt
  {
  }

  lemma AuthorizedBefore(document: Document, event: Event, now: int)
    requires document.status == IsAuthorized && event.kind != Canceled
    ensures Advanced(document, event, now) == document
  {
  }

  lemma OneMoreAdvance(document: Document, deliveries: seq<Delivery>)
    requires deliveries != []
    ensures var init, last := deliveries[..|deliveries| - 1], deliveries[|deliveries| - 1];
            AdvancedBy(document, deliveries) == Advanced(AdvancedBy(document, init), last.event, last.now)
  {
  }

  /** The first authorization of a document neither authorized nor canceled clears its error and is the last
      to touch it, unless a cancellation comes. */
  lemma {:induction false} FirstAuthorizationStays(document: Document, deliveries: seq<Delivery>, k: nat)
    requires document.status != IsCanceled && document.status != IsAuthorized
    requires IsFirst(deliveries, k, Authorized) && !Brings(deliveries, Canceled)
    ensures var final := AdvancedBy(document, deliveries);
            && final.status == IsAuthorized && final.updatedAt == deliveries[k].now && final.errorMessage == None
            && final.canceledAt == document.canceledAt
    decreases |deliveries|
  {
    var n := |deliveries| - 1;
    var last := deliveries[n];
    Initials(deliveries, Canceled);
    OneMoreAdvance(document, deliveries);
    if k < n {
      assert IsFirst(deliveries[..n], k, Authorized);
      FirstAuthorizationStays(document, deliveries[..n], k);
      AuthorizedBefore(AdvancedBy(document, deliveries[..n]), last.event, last.now);
    } else {
      assert !Brings(deliveries[..n], Authorized);
      Unsettled(document, deliveries[..n]);
      AuthorizedNow(AdvancedBy(document, deliveries[..n]), last.event, last.now);
    }
  }

  /** What a rejection or an unknown result leaves, and nothing else of the document. */
  ghost predicate ShowsTheLast(document: Document, final: Document, last: Delivery) {
    && final.status == (if last.event.kind == Rejected then IsRejected else IsPending)
    && final.updatedAt == last.now
    && final.errorMessage == Some(
         if last.event.kind == Unknown then "result_unknown_query_required"
         else if last.event.errorCode.Some? then last.event.errorCode.value
         else "simulator_rejected")
    && final == document.(
         status := final.status, updatedAt := final.updatedAt, errorMessage := final.errorMessage)
  }

  /** With neither an authorization nor a cancellation the last event decides: its time, its status and its
      error show, and everything else is as it was. */
  lemma {:induction false} Unsettled(document: Document, deliveries: seq<Delivery>)
    requires document.status != IsCanceled && document.status != IsAuthorized
    requires !Brings(deliveries, Authorized) && !Brings(deliveries, Canceled)
    ensures var final := AdvancedBy(document, deliveries);
            if deliveries == [] then final == document
            else ShowsTheLast(document, final, deliveries[|deliveries| - 1])
    decreases |deliveries|
  {
    if deliveries != [] {
      Initials(deliveries, Authorized);
      Initials(deliveries, Canceled);
      Unsettled(document, deliveries[..|deliveries| - 1]);
    }
  }

  /** An authorized document is left exactly as it is unless a cancellation comes, and a canceled one
      whatever comes. */
  lemma {:induction false} SettledIsLeft(document: Document, deliveries: seq<Delivery>)
    requires document.status == IsCanceled || (document.status == IsAuthorized && !Brings(deliveries, Canceled))
    ensures AdvancedBy(document, deliveries) == document
    decreases |deliveries|
  {
    if deliveries != [] {
      Initials(deliveries, Canceled);
      SettledIsLeft(document, deliveries[..|deliveries| - 1]);
    }
  }
}
