/**
 * The consumer of the product-events queue: it drains the queue in batches of at most five
 * messages and stores every created, updated or deleted product event it reads.
 */
module EventsConsumer {
  import opened Common
  import opened Events
  import opened Aws
  import opened Pipeline
  import EventRepo

  class ProductEventsConsumer {
    const objectMapper: ObjectMapper
    const sqs: MessageQueue
    const productEventRepository: EventRepo.ProductEventRepository
    /** The receive request asks for at most this many messages. */
    const maxNumberOfMessages: nat := 5

    constructor (objectMapper: ObjectMapper, sqs: MessageQueue, productEventRepository: EventRepo.ProductEventRepository)
      ensures this.objectMapper == objectMapper && this.sqs == sqs
      ensures this.productEventRepository == productEventRepository
    {
      this.objectMapper := objectMapper;
      this.sqs := sqs;
      this.productEventRepository := productEventRepository;
    }

    /** The queue's and the events table's state. */
    function State(): World
      reads sqs, productEventRepository.eventsTable
    {
      World(sqs.pending, sqs.receiveRequests, sqs.deleteRequests,
            productEventRepository.eventsTable.items, productEventRepository.eventsTable.putRequests)
    }

    /** One message of a batch, as a pass step of the product-events feed. */
    method HandleMessage(message: Delivery) returns (failure: Option<Failure>)
      modifies sqs, productEventRepository.eventsTable
      ensures Progress(State(), failure) == Step(FeedPass(ProductEvents, objectMapper), old(State()), message)
    {
      var parsed := objectMapper.readEnvelope(message.message.body);
      if parsed.Err? {
        return Some(EnvelopeParseError(parsed.error));
      }
      var snsMessageDto := parsed.value;
      var requestId := snsMessageDto.messageAttributes.requestId;
      var messageId := snsMessageDto.messageId;
      var traceId := snsMessageDto.messageAttributes.traceId;
      var eventType := ValueOf(snsMessageDto.messageAttributes.eventType);
      if eventType.None? {
        return Some(UnknownEventType(snsMessageDto.messageAttributes.eventType));
      }
      var putOk: bool;
      match eventType.value {
        case ProductCreated | ProductUpdated | ProductDeleted =>
          var productEventDto := objectMapper.readProductEvent(snsMessageDto.message);
          if productEventDto.Err? {
            return Some(PayloadParseError(productEventDto.error));
          }
          putOk := productEventRepository.Create(productEventDto.value, eventType.value, messageId, requestId,
                                                 traceId, message.clock, message.putAccepted);
        case ProductFailure =>
          return Some(InvalidEvent(eventType.value));
      }
      var deleteOk := sqs.DeleteMessage(message.message.receiptHandle, message.deleteAccepted);
      if !(putOk && deleteOk) {
        return Some(CommitFailed(putOk, deleteOk));
      }
      return None;
    }

    /** A drain pass: receive until the queue answers with no message, handling each batch in
        turn; the first message that fails ends the pass with its failure. */
    method ReceiveProductEventsMessages() returns (failure: Option<Failure>)
      modifies sqs, productEventRepository.eventsTable
      ensures Progress(State(), failure) == Drain(FeedPass(ProductEvents, objectMapper), old(State()))
    {
      var messages := sqs.ReceiveMessage(maxNumberOfMessages);
      while messages != []
        invariant AfterReceive(FeedPass(ProductEvents, objectMapper), State(), messages)
                  == Drain(FeedPass(ProductEvents, objectMapper), old(State()))
        decreases |sqs.pending| + (if messages == [] then 0 else 1)
      {
        ghost var pending := sqs.pending;
        for i := 0 to |messages|
          invariant sqs.pending == pending
          invariant var p := RunBatch(FeedPass(ProductEvents, objectMapper), State(), messages[i..]);
                    (if p.failure.Some? then p else Drain(FeedPass(ProductEvents, objectMapper), p.world))
                    == Drain(FeedPass(ProductEvents, objectMapper), old(State()))
        {
          assert messages[i..][0] == messages[i] && messages[i..][1..] == messages[i + 1..];
          failure := HandleMessage(messages[i]);
          if failure.Some? {
            return;
          }
        }
        assert messages[|messages|..] == [];
        messages := sqs.ReceiveMessage(maxNumberOfMessages);
      }
      failure := None;
    }
  }
}
