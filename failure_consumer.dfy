/**
 * The consumer of the product-failure-events queue: it drains the queue in batches of at
 * most ten messages and stores every product-failure event it reads.
 */
module FailureConsumer {
  import opened Common
  import opened Events
  import opened Aws
  import opened Pipeline
  import FailureRepo

  class ProductFailureEventsConsumer {
    const objectMapper: ObjectMapper
    const sqs: MessageQueue
    const productFailureEventsRepository: FailureRepo.ProductFailureEventsRepository
    /** The receive request asks for at most this many messages. */
    const maxNumberOfMessages: nat := 10

    constructor (objectMapper: ObjectMapper, sqs: MessageQueue,
                 productFailureEventsRepository: FailureRepo.ProductFailureEventsRepository)
      ensures this.objectMapper == objectMapper && this.sqs == sqs
      ensures this.productFailureEventsRepository == productFailureEventsRepository
    {
      this.objectMapper := objectMapper;
      this.sqs := sqs;
      this.productFailureEventsRepository := productFailureEventsRepository;
    }

    /** The queue's and the failure-events table's state. */
    function State(): World
      reads sqs, productFailureEventsRepository.productFailureEventsTable
    {
      World(sqs.pending, sqs.receiveRequests, sqs.deleteRequests,
            productFailureEventsRepository.productFailureEventsTable.items,
            productFailureEventsRepository.productFailureEventsTable.putRequests)
    }

    /** One message of a batch, as a pass step of the product-failure-events feed. */
    method HandleMessage(message: Delivery) returns (failure: Option<Failure>)
      modifies sqs, productFailureEventsRepository.productFailureEventsTable
      ensures Progress(State(), failure) == Step(FeedPass(ProductFailureEvents, objectMapper), old(State()), message)
    {
      var parsed := objectMapper.readEnvelope(message.message.body);
      if parsed.Err? {
        return Some(EnvelopeParseError(parsed.error));
      }
      var snsMessageDto := parsed.value;
      var requestId := snsMessageDto.messageAttributes.requestId;
      var messageId := snsMessageDto.messageId;
      var traceId := snsMessageDto.messageAttributes.traceId;
      var eventType := ValueOf(snsMessageDto.messageAttributes.eventType);
      if eventType.None? {
        return Some(UnknownEventType(snsMessageDto.messageAttributes.eventType));
      }
      var putOk: bool;
      if eventType.value == ProductFailure {
        var productFailureEventDto := objectMapper.readProductFailureEvent(snsMessageDto.message);
        if productFailureEventDto.Err? {
          return Some(PayloadParseError(productFailureEventDto.error));
        }
        putOk := productFailureEventsRepository.Create(productFailureEventDto.value, eventType.value, messageId,
                                                       requestId, traceId, message.clock, message.putAccepted);
      } else {
        return Some(InvalidEvent(eventType.value));
      }
      var deleteOk := sqs.DeleteMessage(message.message.receiptHandle, message.deleteAccepted);
      if !(putOk && deleteOk) {
        return Some(CommitFailed(putOk, deleteOk));
      }
      return None;
    }

    /** A drain pass: receive until the queue answers with no message, handling each batch in
        turn; the first message that fails ends the pass with its failure. */
    method ReceiveProductFailureEventsMessages() returns (failure: Option<Failure>)
      modifies sqs, productFailureEventsRepository.productFailureEventsTable
      ensures Progress(State(), failure) == Drain(FeedPass(ProductFailureEvents, objectMapper), old(State()))
    {
      var messages := sqs.ReceiveMessage(maxNumberOfMessages);
      while messages != []
        invariant AfterReceive(FeedPass(ProductFailureEvents, objectMapper), State(), messages)
                  == Drain(FeedPass(ProductFailureEvents, objectMapper), old(State()))
        decreases |sqs.pending| + (if messages == [] then 0 else 1)
      {
        ghost var pending := sqs.pending;
        for i := 0 to |messages|
          invariant sqs.pending == pending
          invariant var p := RunBatch(FeedPass(ProductFailureEvents, objectMapper), State(), messages[i..]);
                    (if p.failure.Some? then p else Drain(FeedPass(ProductFailureEvents, objectMapper), p.world))
                    == Drain(FeedPass(ProductFailureEvents, objectMapper), old(State()))
        {
          assert messages[i..][0] == messages[i] && messages[i..][1..] == messages[i + 1..];
          failure := HandleMessage(messages[i]);
          if failure.Some? {
            return;
          }
        }
        assert messages[|messages|..] == [];
        messages := sqs.ReceiveMessage(maxNumberOfMessages);
      }
      failure := None;
    }
  }
}
