/**
 * What one drain pass of a consumer does, as functions of the queue's and the table's
 * state: decode the envelope, look the event type up, route it against the feed's
 * accepted types, decode the payload, then issue the put and the delete back to back.
 * Messages of a batch are taken in the order given; the first failure ends the pass.
 */
module Pipeline {
  import opened Common
  import opened Events
  import opened Models
  import opened Aws
  import EventRepo
  import FailureRepo

  datatype Feed = ProductEvents | ProductFailureEvents

  /** The `maxNumberOfMessages` of each feed's receive request. */
  function MaxMessages(feed: Feed): nat
  {
    match feed
    case ProductEvents => 5
    case ProductFailureEvents => 10
  }

  /** The event types each feed routes to its repository. */
  predicate Accepts(feed: Feed, t: ProductEventType)
  {
    match feed
    case ProductEvents => t.ProductCreated? || t.ProductUpdated? || t.ProductDeleted?
    case ProductFailureEvents => t.ProductFailure?
  }

  /** The two feeds accept complementary sets of types. */
  lemma AcceptSetsComplementary(t: ProductEventType)
    ensures Accepts(ProductEvents, t) <==> !Accepts(ProductFailureEvents, t)
  {
  }

  datatype Failure =
    | EnvelopeParseError(detail: JsonError)
    | UnknownEventType(name: string)
    | InvalidEvent(eventType: ProductEventType)
    | PayloadParseError(detail: JsonError)
    | CommitFailed(putOk: bool, deleteOk: bool)

  /** Everything a message goes through before its put and delete are issued: on success,
      the record to put. */
  function Route(feed: Feed, mapper: ObjectMapper, d: Delivery): (r: Result<StoredItem, Failure>)
    ensures r.Ok? ==> r.value.CreatedAt() == d.clock.epochMilli && (feed.ProductEvents? <==> r.value.EventItem?)
    ensures r.Err? ==> !r.error.CommitFailed?
    ensures r.Err? && r.error.InvalidEvent? ==> !Accepts(feed, r.error.eventType)
  {
    var envelope := mapper.readEnvelope(d.message.body);
    if envelope.Err? then Err(EnvelopeParseError(envelope.error))
    else
      var sns := envelope.value;
      var attributes := sns.messageAttributes;
      var eventType := ValueOf(attributes.eventType);
      if eventType.None? then Err(UnknownEventType(attributes.eventType))
      else if !Accepts(feed, eventType.value) then Err(InvalidEvent(eventType.value))
      else match feed
        case ProductEvents =>
          var dto := mapper.readProductEvent(sns.message);
          if dto.Err? then Err(PayloadParseError(dto.error))
          else Ok(EventItem(EventRepo.BuildProductEvent(dto.value, eventType.value, sns.messageId,
                                                        attributes.requestId, attributes.traceId, d.clock)))
        case ProductFailureEvents =>
          var dto := mapper.readProductFailureEvent(sns.message);
          if dto.Err? then Err(PayloadParseError(dto.error))
          else Ok(FailureItem(FailureRepo.BuildProductFailureEvent(dto.value, eventType.value, sns.messageId,
                                                                   attributes.requestId, attributes.traceId, d.clock)))
  }

  /** Whether a feed's payload decoder accepts a payload. */
  predicate PayloadDecodes(feed: Feed, mapper: ObjectMapper, payload: string)
  {
    match feed
    case ProductEvents => mapper.readProductEvent(payload).Ok?
    case ProductFailureEvents => mapper.readProductFailureEvent(payload).Ok?
  }

  /** A message is routed exactly when its envelope decodes, its type names a constant the
      feed accepts, and its payload decodes; the record to put lies in the type's partition,
      is created at the first clock reading, and is failure-shaped exactly on the failure feed. */
  lemma RoutedExactly(feed: Feed, mapper: ObjectMapper, d: Delivery)
    ensures var envelope := mapper.readEnvelope(d.message.body);
            Route(feed, mapper, d).Ok? <==>
              && envelope.Ok?
              && ValueOf(envelope.value.messageAttributes.eventType).Some?
              && Accepts(feed, ValueOf(envelope.value.messageAttributes.eventType).value)
              && PayloadDecodes(feed, mapper, envelope.value.message)
    ensures Route(feed, mapper, d).Ok? ==>
              var item := Route(feed, mapper, d).value;
              var t := ValueOf(mapper.readEnvelope(d.message.body).value.messageAttributes.eventType).value;
              && item.Key().pk == PartitionPrefix + Name(t)
              && item.CreatedAt() == d.clock.epochMilli
              && (feed.ProductEvents? <==> item.EventItem?)
  {
  }

  /** A failure-feed record is built from the decoded payload, the looked-up type, the
      envelope's message id and the request and trace id attribute values unchanged, and the
      clock readings taken for the message; its info carries those ids. */
  lemma FailureRecordCarriesEnvelopeIds(mapper: ObjectMapper, d: Delivery)
    requires Route(ProductFailureEvents, mapper, d).Ok?
    ensures var sns := mapper.readEnvelope(d.message.body).value;
            && mapper.readProductFailureEvent(sns.message).Ok?
            && ValueOf(sns.messageAttributes.eventType).Some?
            && Route(ProductFailureEvents, mapper, d).value
               == FailureItem(FailureRepo.BuildProductFailureEvent(mapper.readProductFailureEvent(sns.message).value,
                                                                   ValueOf(sns.messageAttributes.eventType).value,
                                                                   sns.messageId, sns.messageAttributes.requestId,
                                                                   sns.messageAttributes.traceId, d.clock))
    ensures var sns := mapper.readEnvelope(d.message.body).value;
            var info := Route(ProductFailureEvents, mapper, d).value.failure.info;
            && info.messageId == sns.messageId
            && info.requestId == sns.messageAttributes.requestId
            && info.traceId == sns.messageAttributes.traceId
            && info.id == mapper.readProductFailureEvent(sns.message).value.id
  {
  }

  /** A product-feed record is built from the decoded payload, the looked-up type, the
      envelope's message id and the request and trace id attribute values unchanged, and the
      clock readings taken for the message. */
  lemma ProductRecordBuiltFromEnvelope(mapper: ObjectMapper, d: Delivery)
    requires Route(ProductEvents, mapper, d).Ok?
    ensures var sns := mapper.readEnvelope(d.message.body).value;
            && mapper.readProductEvent(sns.message).Ok?
            && ValueOf(sns.messageAttributes.eventType).Some?
            && Route(ProductEvents, mapper, d).value
               == EventItem(EventRepo.BuildProductEvent(mapper.readProductEvent(sns.message).value,
                                                        ValueOf(sns.messageAttributes.eventType).value,
                                                        sns.messageId, sns.messageAttributes.requestId,
                                                        sns.messageAttributes.traceId, d.clock))
  {
  }

  /** No message is routed on both feeds. */
  lemma NoMessageRoutedOnBothFeeds(mapper: ObjectMapper, d: Delivery)
    ensures !(Route(ProductEvents, mapper, d).Ok? && Route(ProductFailureEvents, mapper, d).Ok?)
  {
  }

  // ---------------------------------------------------------------------------
  // The state a pass acts on, and the pass itself
  // ---------------------------------------------------------------------------

  /** The queue's and the table's state: batches still to be received, the receive requests
      and delete requests issued so far, the table's items and the put requests issued. */
  datatype World = World(pending: seq<Batch>, receiveRequests: seq<nat>, deleteRequests: seq<string>,
                         items: map<ItemKey, StoredItem>, putRequests: seq<StoredItem>)

  datatype Progress = Progress(world: World, failure: Option<Failure>)

  /** What tells two consumers apart: how many messages a receive asks for, and how a message
      is routed. */
  datatype Pass = Pass(batchSize: nat, route: Delivery -> Result<StoredItem, Failure>)

  function FeedPass(feed: Feed, mapper: ObjectMapper): (p: Pass)
    ensures p.batchSize == MaxMessages(feed)
    ensures forall d :: p.route(d) == Route(feed, mapper, d)
  {
    Pass(MaxMessages(feed), d => Route(feed, mapper, d))
  }

  /** One message: route it; once routed, put the record and then delete the message, whatever the
      put's outcome; the message is done only if both succeeded. */
  function Step(pass: Pass, w: World, d: Delivery): (r: Progress)
    ensures r.world.pending == w.pending && r.world.receiveRequests == w.receiveRequests
  {
    match pass.route(d)
    case Err(f) => Progress(w, Some(f))
    case Ok(item) =>
      var next := w.(items := if d.putAccepted then w.items[item.Key() := item] else w.items,
                     putRequests := w.putRequests + [item],
                     deleteRequests := w.deleteRequests + [d.message.receiptHandle]);
      Progress(next, if d.putAccepted && d.deleteAccepted then None else Some(CommitFailed(d.putAccepted, d.deleteAccepted)))
  }

  /** The messages of a batch in turn, up to and including the first that fails. */
  function RunBatch(pass: Pass, w: World, batch: Batch): (r: Progress)
    ensures r.world.pending == w.pending && r.world.receiveRequests == w.receiveRequests
    decreases |batch|
  {
    if batch == [] then Progress(w, None)
    else
      var p := Step(pass, w, batch[0]);
      if p.failure.Some? then p else RunBatch(pass, p.world, batch[1..])
  }

  /** The batch a receive request returns. */
  function Head(pending: seq<Batch>): Batch
  {
    if pending == [] then [] else pending[0]
  }

  function Tail(pending: seq<Batch>): seq<Batch>
  {
    if pending == [] then [] else pending[1..]
  }

  /** A drain pass: receive; stop at an empty batch; otherwise process the batch and, unless
      a message failed, receive again. */
  function Drain(pass: Pass, w: World): (r: Progress)
    ensures w.receiveRequests < r.world.receiveRequests
    decreases |w.pending|, 2
  {
    AfterReceive(pass, w.(pending := Tail(w.pending), receiveRequests := w.receiveRequests + [pass.batchSize]),
                 Head(w.pending))
  }

  /** The rest of a pass once `messages` has been received. */
  function AfterReceive(pass: Pass, w: World, messages: Batch): (r: Progress)
    ensures w.receiveRequests <= r.world.receiveRequests
    decreases |w.pending| + (if messages == [] then 0 else 1), 1
  {
    if messages == [] then Progress(w, None)
    else
      var p := RunBatch(pass, w, messages);
      if p.failure.Some? then p else Drain(pass, p.world)
  }

  // ---------------------------------------------------------------------------
  // Properties of a message step
  // ---------------------------------------------------------------------------

  /** The put and the delete are issued exactly when the message is routed, the delete
      whether or not the put succeeds; an unrouted message changes nothing; the message is
      done exactly when it is routed and both its put and its delete succeed; the table
      holds the routed record at its key exactly when the put succeeded. */
  lemma CommitIssuedIffRouted(pass: Pass, w: World, d: Delivery)
    ensures pass.route(d).Ok? <==>
              Step(pass, w, d).world.deleteRequests == w.deleteRequests + [d.message.receiptHandle]
    ensures pass.route(d).Ok? ==> Step(pass, w, d).world.putRequests == w.putRequests + [pass.route(d).value]
    ensures pass.route(d).Err? ==> Step(pass, w, d) == Progress(w, Some(pass.route(d).error))
    ensures Step(pass, w, d).failure.None? <==> Done(pass, d)
    ensures pass.route(d).Ok? && d.putAccepted ==>
              Step(pass, w, d).world.items == w.items[pass.route(d).value.Key() := pass.route(d).value]
    ensures !(pass.route(d).Ok? && d.putAccepted) ==> Step(pass, w, d).world.items == w.items
  {
    if pass.route(d).Err? {
      assert |w.deleteRequests + [d.message.receiptHandle]| != |w.deleteRequests|;
    }
  }

  // ---------------------------------------------------------------------------
  // Properties of a pass
  // ---------------------------------------------------------------------------

  /** A message is done when it is routed and both its put and its delete succeed. */
  predicate Done(pass: Pass, d: Delivery)
  {
    pass.route(d).Ok? && d.putAccepted && d.deleteAccepted
  }

  /** The puts and the deletes the routed messages among `ds` issue, in order. */
  function Puts(pass: Pass, ds: seq<Delivery>): seq<StoredItem>
  {
    if ds == [] then []
    else (if pass.route(ds[0]).Ok? then [pass.route(ds[0]).value] else []) + Puts(pass, ds[1..])
  }

  function Deletes(pass: Pass, ds: seq<Delivery>): seq<string>
  {
    if ds == [] then []
    else (if pass.route(ds[0]).Ok? then [ds[0].message.receiptHandle] else []) + Deletes(pass, ds[1..])
  }

  /** The table after the routed messages among `ds` whose put succeeded have been upserted
      under their keys, in order. */
  function Stored(items: map<ItemKey, StoredItem>, pass: Pass, ds: seq<Delivery>): map<ItemKey, StoredItem>
    decreases |ds|
  {
    if ds == [] then items
    else
      var next := if pass.route(ds[0]).Ok? && ds[0].putAccepted
                  then items[pass.route(ds[0]).value.Key() := pass.route(ds[0]).value] else items;
      Stored(next, pass, ds[1..])
  }

  lemma {:induction false} StoredAppend(items: map<ItemKey, StoredItem>, pass: Pass, a: seq<Delivery>, b: seq<Delivery>)
    ensures Stored(items, pass, a + b) == Stored(Stored(items, pass, a), pass, b)
    decreases |a|
  {
    if a == [] {
      assert a + b == b;
    } else {
      assert (a + b)[0] == a[0];
      assert (a + b)[1..] == a[1..] + b;
      var next := if pass.route(a[0]).Ok? && a[0].putAccepted
                  then items[pass.route(a[0]).value.Key() := pass.route(a[0]).value] else items;
      StoredAppend(next, pass, a[1..], b);
    }
  }

  lemma {:induction false} CommitsAppend(pass: Pass, a: seq<Delivery>, b: seq<Delivery>)
    ensures Puts(pass, a + b) == Puts(pass, a) + Puts(pass, b)
    ensures Deletes(pass, a + b) == Deletes(pass, a) + Deletes(pass, b)
  {
    if a == [] {
      assert a + b == b;
    } else {
      assert (a + b)[0] == a[0];
      assert (a + b)[1..] == a[1..] + b;
      CommitsAppend(pass, a[1..], b);
    }
  }

  /** Processing a prefix of `ds` up to and including index k - 1, in order, where every
      message but (on failure) the last was done and the last was not; the logs and the table
      hold exactly what those messages' requests make of them. */
  ghost predicate ProcessedPrefix(pass: Pass, w: World, r: Progress, ds: seq<Delivery>, k: nat)
  {
    && k <= |ds|
    && r.world.items == Stored(w.items, pass, ds[..k])
    && r.world.putRequests == w.putRequests + Puts(pass, ds[..k])
    && r.world.deleteRequests == w.deleteRequests + Deletes(pass, ds[..k])
    && (r.failure.None? ==> k == |ds|)
    && (r.failure.Some? ==> 1 <= k && !Done(pass, ds[k - 1]))
    && (forall i :: 0 <= i < k - (if r.failure.Some? then 1 else 0) ==> Done(pass, ds[i]))
  }

  /** A single message is processed by its own step. */
  lemma StepProcessed(pass: Pass, w: World, d: Delivery)
    ensures ProcessedPrefix(pass, w, Step(pass, w, d), [d], 1)
  {
    CommitIssuedIffRouted(pass, w, d);
    assert [d][..1] == [d];
    assert [d][1..] == [];
  }

  /** What was processed before a failure stays processed whatever else was received. */
  lemma {:induction false} ProcessedWiden(pass: Pass, w: World, r: Progress, a: seq<Delivery>, b: seq<Delivery>, k: nat)
    requires r.failure.Some? && ProcessedPrefix(pass, w, r, a, k)
    ensures ProcessedPrefix(pass, w, r, a + b, k)
  {
    assert (a + b)[..k] == a[..k];
    forall i | 0 <= i < k ensures (a + b)[i] == a[i] {
    }
  }

  /** All of `a` processed without failure, then a prefix of `b`, is a prefix of `a + b`. */
  lemma {:induction false} ProcessedConcat(pass: Pass, w: World, p: Progress, r: Progress, a: seq<Delivery>, b: seq<Delivery>, k: nat)
    requires p.failure.None? && ProcessedPrefix(pass, w, p, a, |a|)
    requires ProcessedPrefix(pass, p.world, r, b, k)
    ensures ProcessedPrefix(pass, w, r, a + b, |a| + k)
  {
    var ds := a + b;
    assert ds[..|a| + k] == a + b[..k];
    assert a[..|a|] == a;
    CommitsAppend(pass, a, b[..k]);
    StoredAppend(w.items, pass, a, b[..k]);
    assert r.world.items == Stored(w.items, pass, ds[..|a| + k]);
    assert r.world.putRequests == w.putRequests + Puts(pass, ds[..|a| + k]);
    assert r.world.deleteRequests == w.deleteRequests + Deletes(pass, ds[..|a| + k]);
    if r.failure.Some? {
      assert ds[|a| + k - 1] == b[k - 1];
    }
    forall i | 0 <= i < |a| + k - (if r.failure.Some? then 1 else 0) ensures Done(pass, ds[i]) {
      if i < |a| {
        assert ds[i] == a[i];
      } else {
        assert ds[i] == b[i - |a|];
      }
    }
  }

  /** A batch is processed in order up to and including its first message that is not done;
      the puts and deletes issued are exactly those of the routed messages processed, and the
      table holds exactly the upserts of those whose put succeeded. */
  lemma {:induction false} RunBatchEffects(pass: Pass, w: World, batch: Batch)
    ensures exists k: nat :: ProcessedPrefix(pass, w, RunBatch(pass, w, batch), batch, k)
    decreases |batch|
  {
    var r := RunBatch(pass, w, batch);
    if batch == [] {
      assert ProcessedPrefix(pass, w, r, batch, 0);
    } else {
      var p := Step(pass, w, batch[0]);
      StepProcessed(pass, w, batch[0]);
      assert batch == [batch[0]] + batch[1..];
      if p.failure.Some? {
        ProcessedWiden(pass, w, p, [batch[0]], batch[1..], 1);
      } else {
        RunBatchEffects(pass, p.world, batch[1..]);
        var k: nat :| ProcessedPrefix(pass, p.world, r, batch[1..], k);
        ProcessedConcat(pass, w, p, r, [batch[0]], batch[1..], k);
      }
    }
  }

  /** The batch the j-th receive of a pass returns. */
  function ReceivedBatch(pending: seq<Batch>, j: nat): Batch
  {
    if j < |pending| then pending[j] else []
  }

  function Drop(pending: seq<Batch>, n: nat): seq<Batch>
  {
    if n >= |pending| then [] else pending[n..]
  }

  /** The deliveries the first n receives return, in order. */
  function Received(pending: seq<Batch>, n: nat): seq<Delivery>
    decreases n
  {
    if n == 0 || pending == [] then [] else pending[0] + Received(pending[1..], n - 1)
  }

  /** The number of receive requests a pass issued. */
  function ReceiveCount(w: World, r: Progress): nat
  {
    if |r.world.receiveRequests| >= |w.receiveRequests| then |r.world.receiveRequests| - |w.receiveRequests| else 0
  }

  /** A pass issues n >= 1 receive requests, each for the pass's batch size, and consumes n
      batches; every batch but the last was non-empty and had all its messages done; the last
      was empty exactly when the pass drained, and otherwise holds the message that failed,
      so no receive follows a failure. */
  lemma {:induction false} DrainReceives(pass: Pass, w: World)
    ensures var r := Drain(pass, w);
            var n := ReceiveCount(w, r);
            && n >= 1
            && (forall i :: |w.receiveRequests| <= i < |r.world.receiveRequests| ==>
                  r.world.receiveRequests[i] == pass.batchSize)
            && r.world.pending == Drop(w.pending, n)
            && (forall j :: 0 <= j < n - 1 ==> ReceivedBatch(w.pending, j) != [])
            && (r.failure.None? <==> ReceivedBatch(w.pending, n - 1) == [])
            && (forall j, d :: 0 <= j < n - 1 && d in ReceivedBatch(w.pending, j) ==> Done(pass, d))
            && (r.failure.Some? ==> exists d :: d in ReceivedBatch(w.pending, n - 1) && !Done(pass, d))
    decreases |w.pending|
  {
    var r := Drain(pass, w);
    var w1 := w.(pending := Tail(w.pending), receiveRequests := w.receiveRequests + [pass.batchSize]);
    var messages := Head(w.pending);
    assert r == AfterReceive(pass, w1, messages);
    if messages != [] {
      var p := RunBatch(pass, w1, messages);
      RunBatchEffects(pass, w1, messages);
      var k: nat :| ProcessedPrefix(pass, w1, p, messages, k);
      if p.failure.Some? {
        assert r == p;
        assert ReceiveCount(w, r) == 1;
        assert messages[k - 1] in ReceivedBatch(w.pending, 0);
      } else {
        assert r == Drain(pass, p.world);
        DrainReceives(pass, p.world);
        var n' := ReceiveCount(p.world, r);
        assert ReceiveCount(w, r) == n' + 1;
        forall i | |w.receiveRequests| <= i < |r.world.receiveRequests|
          ensures r.world.receiveRequests[i] == pass.batchSize
        {
          if i == |w.receiveRequests| {
            assert r.world.receiveRequests[..|p.world.receiveRequests|] == p.world.receiveRequests;
          }
        }
        forall j | 0 <= j < n' ensures ReceivedBatch(w.pending, j + 1) == ReceivedBatch(p.world.pending, j) {
        }
        assert Drop(p.world.pending, n') == Drop(w.pending, n' + 1);
        assert r.world.pending == Drop(w.pending, n' + 1);
        forall j | 0 <= j < n' ensures ReceivedBatch(w.pending, j) != [] {
          if j > 0 {
            assert ReceivedBatch(w.pending, j) == ReceivedBatch(p.world.pending, j - 1);
          }
        }
        assert r.failure.None? <==> ReceivedBatch(w.pending, n') == [];
        forall j, d | 0 <= j < n' && d in ReceivedBatch(w.pending, j) ensures Done(pass, d) {
          if j == 0 {
            assert ReceivedBatch(w.pending, 0) == messages;
            var i :| 0 <= i < |messages| && messages[i] == d;
          } else {
            assert ReceivedBatch(w.pending, j) == ReceivedBatch(p.world.pending, j - 1);
          }
        }
        if r.failure.Some? {
          assert ReceivedBatch(w.pending, n') == ReceivedBatch(p.world.pending, n' - 1);
        }
      }
    }
  }

  /** A pass processes the messages it receives in order, up to and including its first
      message that is not done: the puts and deletes it issues are exactly those of the routed
      messages processed, and the table ends as those whose put succeeded upsert it, so a
      message that is not routed is never put, never stored and never deleted; if the pass
      drained, every message it received was done. */
  lemma {:induction false} DrainEffects(pass: Pass, w: World)
    ensures exists k: nat :: ProcessedPrefix(pass, w, Drain(pass, w), Received(w.pending, ReceiveCount(w, Drain(pass, w))), k)
    decreases |w.pending|
  {
    var r := Drain(pass, w);
    var w1 := w.(pending := Tail(w.pending), receiveRequests := w.receiveRequests + [pass.batchSize]);
    var messages := Head(w.pending);
    assert r == AfterReceive(pass, w1, messages);
    var n := ReceiveCount(w, r);
    if messages == [] {
      assert n == 1;
      assert Received(w.pending, n) == [] by {
        if w.pending != [] {
          assert Received(w.pending, n) == messages + Received(w.pending[1..], 0);
        }
      }
      assert ProcessedPrefix(pass, w, r, [], 0);
    } else {
      var p := RunBatch(pass, w1, messages);
      RunBatchEffects(pass, w1, messages);
      var k1: nat :| ProcessedPrefix(pass, w1, p, messages, k1);
      var rest := Received(w.pending[1..], n - 1);
      assert Received(w.pending, n) == messages + rest;
      if p.failure.Some? {
        assert r == p;
        ProcessedWiden(pass, w, p, messages, rest, k1);
        assert ProcessedPrefix(pass, w, r, Received(w.pending, n), k1);
      } else {
        assert r == Drain(pass, p.world);
        DrainEffects(pass, p.world);
        assert ReceiveCount(p.world, r) == n - 1;
        var k2: nat :| ProcessedPrefix(pass, p.world, r, rest, k2);
        assert ProcessedPrefix(pass, w, p, messages, |messages|);
        ProcessedConcat(pass, w, p, r, messages, rest, k2);
        assert ProcessedPrefix(pass, w, r, Received(w.pending, n), |messages| + k2);
      }
    }
  }

  /** Every record among a message sequence's puts was routed from one of its messages. */
  lemma {:induction false} PutsAreRouted(pass: Pass, ds: seq<Delivery>)
    ensures forall x :: x in Puts(pass, ds) ==> exists d :: d in ds && pass.route(d) == Ok(x)
  {
    if ds != [] {
      PutsAreRouted(pass, ds[1..]);
      forall x | x in Puts(pass, ds) ensures exists d :: d in ds && pass.route(d) == Ok(x) {
        if !(pass.route(ds[0]).Ok? && x == pass.route(ds[0]).value) {
          var d :| d in ds[1..] && pass.route(d) == Ok(x);
          assert d in ds;
        }
      }
    }
  }

  /** A record a feed may store: failure-shaped exactly on the failure feed, and in the
      partition of one of the feed's accepted types. */
  predicate StoredOnFeed(feed: Feed, x: StoredItem)
  {
    && (feed.ProductEvents? <==> x.EventItem?)
    && exists t: ProductEventType :: Accepts(feed, t) && x.Key().pk == PartitionPrefix + Name(t)
  }

  /** A consumer's pass adds to the put log only records its feed may store: the put log of
      the product-events pass never gains a failure record or a failure-partition key, and the
      put log of the product-failure-events pass gains only failure records under the failure
      partition. */
  lemma FeedPassStoresOnlyItsTypes(feed: Feed, mapper: ObjectMapper, w: World)
    ensures w.putRequests <= Drain(FeedPass(feed, mapper), w).world.putRequests
    ensures forall i :: |w.putRequests| <= i < |Drain(FeedPass(feed, mapper), w).world.putRequests| ==>
              StoredOnFeed(feed, Drain(FeedPass(feed, mapper), w).world.putRequests[i])
  {
    var pass := FeedPass(feed, mapper);
    var r := Drain(pass, w);
    DrainEffects(pass, w);
    var received := Received(w.pending, ReceiveCount(w, r));
    var k: nat :| ProcessedPrefix(pass, w, r, received, k);
    PutsAreRouted(pass, received[..k]);
    forall i | |w.putRequests| <= i < |r.world.putRequests| ensures StoredOnFeed(feed, r.world.putRequests[i]) {
      var x := r.world.putRequests[i];
      assert x == Puts(pass, received[..k])[i - |w.putRequests|];
      var d :| d in received[..k] && pass.route(d) == Ok(x);
      RoutedExactly(feed, mapper, d);
      var t := ValueOf(mapper.readEnvelope(d.message.body).value.messageAttributes.eventType).value;
      assert Accepts(feed, t) && x.Key().pk == PartitionPrefix + Name(t);
    }
  }
}
