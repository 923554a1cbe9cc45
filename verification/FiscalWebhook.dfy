// The provider's webhook: each delivery is one transaction that records the event, moves the
// document's status if the move is allowed, and settles the document's running operations.
module FiscalWebhook {
  import opened Options

  datatype Kind = Authorized | Rejected | Canceled | Unknown

  datatype Event = Event(
    id: string, kind: Kind, documentId: string, providerReference: Option<string>, accessKey: Option<string>,
    xmlUrl: Option<string>, danfeUrl: Option<string>, errorCode: Option<string>)

  datatype Status = IsAuthorized | IsRejected | IsCanceled | IsPending | OtherStatus(text: string)

  datatype Document = Document(
    status: Status, externalId: Option<string>, accessKey: Option<string>, xmlUrl: Option<string>,
    danfeUrl: Option<string>,
    issuedAt: Option<int>, canceledAt: Option<int>, errorMessage: Option<string>, updatedAt: int)

  datatype OperationStatus = Processing | Succeeded | Retryable | OtherOperation(text: string)

  datatype Operation = Operation(
    documentId: string, status: OperationStatus, errorCode: Option<string>, leased: bool, updatedAt: int)

  // What is recorded of an event, under the credential's provider name and the event's identifier.
  datatype Mark = Processed | NonMonotonic | DocumentNotFound

  datatype EventKey = EventKey(credential: string, eventId: string)

  // The rows the credential's tenant, branch and environment can see.
  datatype Db = Db(events: map<EventKey, Mark>, documents: map<string, Document>, operations: map<string, Operation>)

  // A delivery whose signature and credential were accepted.
  datatype Delivery = Delivery(credential: string, event: Event, now: int)

  datatype Reply = Reply(duplicate: bool, ignored: bool)

  function Or<T>(a: Option<T>, b: Option<T>): Option<T> {
    if a.Some? then a else b
  }

  predicate Blocked(document: Document, kind: Kind) {
    document.status.IsCanceled? || (document.status.IsAuthorized? && !kind.Canceled?)
  }

  function Patched(document: Document, event: Event, now: int): Document {
    match event.kind
    case Authorized =>
      document.(status := IsAuthorized, externalId := Or(event.providerReference, document.externalId),
                accessKey := Or(event.accessKey, document.accessKey), xmlUrl := Or(event.xmlUrl, document.xmlUrl),
                danfeUrl := Or(event.danfeUrl, document.danfeUrl), issuedAt := Or(document.issuedAt, Some(now)),
                errorMessage := None, updatedAt := now)
    case Canceled => document.(status := IsCanceled, canceledAt := Some(now), errorMessage := None, updatedAt := now)
    case Rejected =>
      document.(status := IsRejected, errorMessage := Or(event.errorCode, Some("simulator_rejected")), updatedAt := now)
    case Unknown =>
      document.(status := IsPending, errorMessage := Some("result_unknown_query_required"), updatedAt := now)
  }

  function Advanced(document: Document, event: Event, now: int): Document {
    if Blocked(document, event.kind) then document else Patched(document, event, now)
  }

  /** The document's running operations are settled, whether or not the move was allowed. */
  function Settled(operations: map<string, Operation>, event: Event, now: int): map<string, Operation> {
    map id | id in operations ::
      if operations[id].documentId == event.documentId && operations[id].status.Processing?
      then operations[id].(status := if event.kind.Unknown? then Retryable else Succeeded, errorCode := event.errorCode,
                           leased := false, updatedAt := now)
      else operations[id]
  }

  function KeyOf(delivery: Delivery): EventKey {
    EventKey(delivery.credential, delivery.event.id)
  }

  datatype Turn = Turn(db: Db, reply: Reply)

  function Receive(db: Db, delivery: Delivery): Turn {
    var event, key := delivery.event, KeyOf(delivery);
    if key in db.events then Turn(db, Reply(true, false))
    else if event.documentId !in db.documents then
      Turn(db.(events := db.events[key := DocumentNotFound]), Reply(false, true))
    else
      var document := db.documents[event.documentId];
      var blocked := Blocked(document, event.kind);
      Turn(Db(db.events[key := if blocked then NonMonotonic else Processed],
              db.documents[event.documentId := Advanced(document, event, delivery.now)],
              Settled(db.operations, event, delivery.now)),
           Reply(false, blocked))
  }

  // ---- the transaction on tables ------------------------------------------------------

  class Tables {
    var events: map<EventKey, Mark>
    var documents: map<string, Document>
    var operations: map<string, Operation>

    ghost function State(): Db
      reads this
    {
      Db(events, documents, operations)
    }

    constructor (db: Db)
      ensures State() == db
    {
      events, documents, operations := db.events, db.documents, db.operations;
    }

    method ReceiveSimulatorWebhook(delivery: Delivery) returns (reply: Reply)
      modifies this
      ensures Turn(State(), reply) == Receive(old(State()), delivery)
    {
      var event, key, now := delivery.event, KeyOf(delivery), delivery.now;
      if key in events { return Reply(true, false); }
      if event.documentId !in documents {
        events := events[key := DocumentNotFound];
        return Reply(false, true);
      }
      var document := documents[event.documentId];
      var blocked := Blocked(document, event.kind);
      if !blocked {
        documents := documents[event.documentId := Patched(document, event, now)];
      }
      operations := Settled(operations, event, now);
      events := events[key := if blocked then NonMonotonic else Processed];
      assert blocked ==> documents == documents[event.documentId := document];
      reply := Reply(false, blocked);
    }
  }

  // ---- folding deliveries -------------------------------------------------------------

  function Fold(db: Db, deliveries: seq<Delivery>): Db {
    if deliveries == [] then db else Receive(Fold(db, deliveries[..|deliveries| - 1]), deliveries[|deliveries| - 1]).db
  }

  /** The deliveries whose event was not recorded before. */
  function Fresh(db: Db, deliveries: seq<Delivery>): seq<Delivery> {
    if deliveries == [] then []
    else
      var init, last := deliveries[..|deliveries| - 1], deliveries[|deliveries| - 1];
      Fresh(db, init) + (if KeyOf(last) in Fold(db, init).events then [] else [last])
  }

  lemma {:induction false} EventsRecorded(db: Db, deliveries: seq<Delivery>, key: EventKey)
    ensures key in Fold(db, deliveries).events <==>
            key in db.events || exists i :: 0 <= i < |deliveries| && KeyOf(deliveries[i]) == key
    decreases |deliveries|
  {
    if deliveries != [] {
      var init, last := deliveries[..|deliveries| - 1], deliveries[|deliveries| - 1];
      EventsRecorded(db, init, key);
      assert deliveries == init + [last];
      if i :| 0 <= i < |deliveries| && KeyOf(deliveries[i]) == key && i < |init| {
        assert KeyOf(init[i]) == key;
      }
    }
  }

  /** What counts as fresh: the first delivery of an event not in the table at the start. */
  lemma FreshIff(db: Db, deliveries: seq<Delivery>, last: Delivery)
    ensures Fresh(db, deliveries + [last]) ==
            if KeyOf(last) in db.events || exists i :: 0 <= i < |deliveries| && KeyOf(deliveries[i]) == KeyOf(last)
            then Fresh(db, deliveries) else Fresh(db, deliveries) + [last]
  {
    assert (deliveries + [last])[..|deliveries|] == deliveries;
    EventsRecorded(db, deliveries, KeyOf(last));
    assert Fresh(db, deliveries) + [] == Fresh(db, deliveries);
  }

  /** Duplicates change nothing: all the deliveries leave what the fresh ones alone would leave. */
  lemma {:induction false} DuplicatesDoNotMatter(db: Db, deliveries: seq<Delivery>)
    ensures Fold(db, deliveries) == Fold(db, Fresh(db, deliveries))
    decreases |deliveries|
  {
    if deliveries != [] {
      var init, last := deliveries[..|deliveries| - 1], deliveries[|deliveries| - 1];
      DuplicatesDoNotMatter(db, init);
      var first := Fresh(db, init);
      assert (first + [last])[..|first|] == first;
      assert first + [] == first;
    }
  }

  // ---- the status of one document -----------------------------------------------------

  /** The fresh deliveries for a document, in order. */
  function For(db: Db, deliveries: seq<Delivery>, documentId: string): seq<Delivery> {
    if deliveries == [] then []
    else
      var init, last := deliveries[..|deliveries| - 1], deliveries[|deliveries| - 1];
      For(db, init, documentId)
      + (if KeyOf(last) !in Fold(db, init).events && last.event.documentId == documentId then [last] else [])
  }

  function AdvancedBy(document: Document, deliveries: seq<Delivery>): Document {
    if deliveries == [] then document
    else
      var last := deliveries[|deliveries| - 1];
      Advanced(AdvancedBy(document, deliveries[..|deliveries| - 1]), last.event, last.now)
  }

  /** A document is moved by its own fresh events and by nothing else; documents neither appear nor
      disappear. */
  lemma {:induction false} DocumentFold(db: Db, deliveries: seq<Delivery>, documentId: string)
    ensures documentId in Fold(db, deliveries).documents <==> documentId in db.documents
    ensures documentId in db.documents ==>
            Fold(db, deliveries).documents[documentId] ==
              AdvancedBy(db.documents[documentId], For(db, deliveries, documentId))
    decreases |deliveries|
  {
    if deliveries != [] {
      var init, last := deliveries[..|deliveries| - 1], deliveries[|deliveries| - 1];
      DocumentFold(db, init, documentId);
      var own := For(db, init, documentId);
      if documentId in db.documents {
      }
      assert own + [] == own;
    }
  }

  predicate HasKind(deliveries: seq<Delivery>, kind: Kind) {
    exists i :: 0 <= i < |deliveries| && deliveries[i].event.kind == kind
  }

  function StatusOf(kind: Kind): Status {
    match kind
    case Authorized => IsAuthorized
    case Rejected => IsRejected
    case Canceled => IsCanceled
    case Unknown => IsPending
  }

  function FinalStatus(start: Status, deliveries: seq<Delivery>): Status {
    if start.IsCanceled? || HasKind(deliveries, Canceled) then IsCanceled
    else if start.IsAuthorized? || HasKind(deliveries, Authorized) then IsAuthorized
    else if deliveries == [] then start
    else StatusOf(deliveries[|deliveries| - 1].event.kind)
  }

  lemma {:induction false} StatusAfter(document: Document, deliveries: seq<Delivery>)
    ensures AdvancedBy(document, deliveries).status == FinalStatus(document.status, deliveries)
    decreases |deliveries|
  {
    if deliveries != [] {
      StatusAfter(document, deliveries[..|deliveries| - 1]);
    }
  }

  /** Whatever the order of the deliveries: canceled if the document or any fresh event of its is,
      else authorized if the document or any of them is, else what the last of them says. */
  lemma {:induction false} StatusIsMonotonic(db: Db, deliveries: seq<Delivery>, documentId: string)
    requires documentId in db.documents
    ensures documentId in Fold(db, deliveries).documents
    ensures Fold(db, deliveries).documents[documentId].status ==
            FinalStatus(db.documents[documentId].status, For(db, deliveries, documentId))
  {
    DocumentFold(db, deliveries, documentId);
    StatusAfter(db.documents[documentId], For(db, deliveries, documentId));
  }

  // ---- what an authorization fixes ----------------------------------------------------

  /** Same identifiers and issue time. */
  ghost predicate SameIssue(a: Document, b: Document) {
    a.externalId == b.externalId && a.accessKey == b.accessKey && a.xmlUrl == b.xmlUrl && a.danfeUrl == b.danfeUrl
    && a.issuedAt == b.issuedAt
  }

  /** After an authorization nothing changes the identifiers, links and issue time, and after a
      cancellation nothing changes at all. */
  lemma {:induction false} IssuedForever(document: Document, deliveries: seq<Delivery>)
    requires document.status.IsAuthorized? || document.status.IsCanceled?
    ensures SameIssue(AdvancedBy(document, deliveries), document)
    ensures document.status.IsCanceled? ==> AdvancedBy(document, deliveries) == document
    ensures AdvancedBy(document, deliveries).status.IsAuthorized? || AdvancedBy(document, deliveries).status.IsCanceled?
    decreases |deliveries|
  {
    if deliveries != [] {
      IssuedForever(document, deliveries[..|deliveries| - 1]);
    }
  }

  /** The first event to authorize a document that was neither authorized nor canceled issues it: what
      the event brings wins over what was there, except for an issue time already set, and no later
      event changes any of it. */
  lemma {:induction false} AuthorizationIssues(document: Document, event: Event, now: int, later: seq<Delivery>)
    requires event.kind.Authorized? && !document.status.IsAuthorized? && !document.status.IsCanceled?
    ensures var final := AdvancedBy(Advanced(document, event, now), later);
            && final.externalId ==
               (if event.providerReference.Some? then event.providerReference else document.externalId)
            && final.accessKey == (if event.accessKey.Some? then event.accessKey else document.accessKey)
            && final.xmlUrl == (if event.xmlUrl.Some? then event.xmlUrl else document.xmlUrl)
            && final.danfeUrl == (if event.danfeUrl.Some? then event.danfeUrl else document.danfeUrl)
            && final.issuedAt == (if document.issuedAt.Some? then document.issuedAt else Some(now))
  {
    IssuedForever(Advanced(document, event, now), later);
  }

  // ---- operations and lost events -----------------------------------------------------

  /** What a fresh event does to a running operation of its document. */
  function SettledBy(operation: Operation, delivery: Delivery): Operation {
    if !operation.status.Processing? then operation
    else operation.(status := if delivery.event.kind.Unknown? then Retryable else Succeeded,
                    errorCode := delivery.event.errorCode, leased := false, updatedAt := delivery.now)
  }

  lemma ReceiveSettles(db: Db, delivery: Delivery, id: string)
    requires id in db.operations
    ensures var after, operation := Receive(db, delivery).db.operations, db.operations[id];
            && id in after
            && after[id] ==
               if KeyOf(delivery) !in db.events && delivery.event.documentId in db.documents
                  && delivery.event.documentId == operation.documentId
               then SettledBy(operation, delivery) else operation
  {
  }

  /** An operation changes at most once: its document's first fresh event settles it if it is running,
      even when the event's move of the document is blocked, and no other event touches it. */
  lemma {:induction false} OperationFold(db: Db, deliveries: seq<Delivery>, id: string)
    requires id in db.operations
    ensures var operation := db.operations[id];
            var own := For(db, deliveries, operation.documentId);
            id in Fold(db, deliveries).operations && Fold(db, deliveries).operations[id] ==
            if own == [] || operation.documentId !in db.documents then operation else SettledBy(operation, own[0])
    decreases |deliveries|
  {
    if deliveries != [] {
      var init, last := deliveries[..|deliveries| - 1], deliveries[|deliveries| - 1];
      OperationFold(db, init, id);
      DocumentFold(db, init, last.event.documentId);
      ReceiveSettles(Fold(db, init), last, id);
      var own := For(db, init, db.operations[id].documentId);
      assert own + [] == own;
    }
  }

  /** So after a fresh event for a known document none of its operations runs or is leased by one. */
  lemma {:induction false} NoOperationIsLeftRunning(db: Db, deliveries: seq<Delivery>, id: string)
    requires id in db.operations && db.operations[id].documentId in db.documents
    requires For(db, deliveries, db.operations[id].documentId) != []
    ensures var after := Fold(db, deliveries);
            id in after.operations && !after.operations[id].status.Processing?
            && (db.operations[id].status.Processing? ==> !after.operations[id].leased)
  {
    OperationFold(db, deliveries, id);
  }

  function Without(deliveries: seq<Delivery>, key: EventKey): seq<Delivery> {
    if deliveries == [] then []
    else
      var last := deliveries[|deliveries| - 1];
      Without(deliveries[..|deliveries| - 1], key) + (if KeyOf(last) == key then [] else [last])
  }

  /** The two differ in the record of an event alone. */
  ghost predicate ButForTheRecord(a: Db, b: Db, key: EventKey) {
    key !in b.events && a == b.(events := b.events[key := DocumentNotFound])
  }

  lemma ReceiveButForTheRecord(a: Db, b: Db, key: EventKey, delivery: Delivery)
    requires ButForTheRecord(a, b, key)
    ensures if KeyOf(delivery) == key then Receive(a, delivery) == Turn(a, Reply(true, false))
            else ButForTheRecord(Receive(a, delivery).db, Receive(b, delivery).db, key)
                 && Receive(a, delivery).reply == Receive(b, delivery).reply
  {
    if KeyOf(delivery) != key && KeyOf(delivery) !in b.events {
      var mark := Receive(b, delivery).db.events[KeyOf(delivery)];
      assert b.events[key := DocumentNotFound][KeyOf(delivery) := mark] ==
             b.events[KeyOf(delivery) := mark][key := DocumentNotFound];
    }
  }

  lemma {:induction false} FoldButForTheRecord(a: Db, b: Db, key: EventKey, deliveries: seq<Delivery>)
    requires ButForTheRecord(a, b, key)
    ensures ButForTheRecord(Fold(a, deliveries), Fold(b, Without(deliveries, key)), key)
    decreases |deliveries|
  {
    if deliveries != [] {
      var init, last := deliveries[..|deliveries| - 1], deliveries[|deliveries| - 1];
      FoldButForTheRecord(a, b, key, init);
      var rest := Without(init, key);
      ReceiveButForTheRecord(Fold(a, init), Fold(b, rest), key, last);
      assert rest + [] == rest && (rest + [last])[..|rest|] == rest;
    }
  }

  /** An event that comes before its document is lost: whatever documents appear afterwards and
      whatever is delivered then, the event again included, documents and operations end as if it had
      never been sent. */
  lemma {:induction false} EarlyEventIsLost(
      db: Db, early: Delivery, documents: map<string, Document>, later: seq<Delivery>)
    requires KeyOf(early) !in db.events && early.event.documentId !in db.documents
    ensures var received := Fold(Receive(db, early).db.(documents := documents), later);
            var never := Fold(db.(documents := documents), Without(later, KeyOf(early)));
            received.documents == never.documents && received.operations == never.operations
  {
    FoldButForTheRecord(Receive(db, early).db.(documents := documents), db.(documents := documents), KeyOf(early),
                        later);
  }
}
