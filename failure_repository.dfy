/** The repository the product-failure consumer writes through. */
module FailureRepo {
  import opened Common
  import opened SortKeys
  import opened Events
  import opened Models
  import opened Aws

  function BuildProductInfoFailureEvent(dto: ProductFailureEventDto, messageId: string, requestId: string,
                                        traceId: string): (r: ProductInfoFailureEvent)
    ensures r.id == dto.id && r.error == dto.error && r.status == dto.status
    ensures r.messageId == messageId && r.requestId == requestId && r.traceId == traceId
  {
    ProductInfoFailureEvent(dto.id, requestId, messageId, dto.status, dto.error, traceId)
  }

  /** The record `create` puts: keyed like a product event, carrying the payload's email and
      an info part holding the payload's id, error and status and the three identifiers. */
  function BuildProductFailureEvent(dto: ProductFailureEventDto, t: ProductEventType, messageId: string,
                                    requestId: string, traceId: string, clock: Clock): (r: ProductFailureEvent)
    ensures r.pk == PartitionPrefix + Name(t)
    ensures r.createdAt == clock.epochMilli && ParseDecimal(r.sk) == Some(r.createdAt)
    ensures r.ttl == clock.epochSecond + TtlSeconds
    ensures r.email == dto.email
    ensures r.info.id == dto.id && r.info.error == dto.error && r.info.status == dto.status
    ensures r.info.messageId == messageId && r.info.requestId == requestId && r.info.traceId == traceId
  {
    DecimalRoundTrip(clock.epochMilli);
    var info := BuildProductInfoFailureEvent(dto, messageId, requestId, traceId);
    ProductFailureEvent(PartitionPrefix + Name(t), DecimalOf(clock.epochMilli), clock.epochMilli,
                        clock.epochSecond + TtlSeconds, dto.email, info)
  }

  class ProductFailureEventsRepository {
    const productFailureEventsTable: EventsTable

    constructor (productFailureEventsTable: EventsTable)
      ensures this.productFailureEventsTable == productFailureEventsTable
    {
      this.productFailureEventsTable := productFailureEventsTable;
    }

    /** Builds the record and issues exactly one put of it; `accepted` is the table's answer. */
    method Create(dto: ProductFailureEventDto, t: ProductEventType, messageId: string, requestId: string,
                  traceId: string, clock: Clock, accepted: bool) returns (ok: bool)
      modifies productFailureEventsTable
      ensures ok == accepted
      ensures var item := FailureItem(BuildProductFailureEvent(dto, t, messageId, requestId, traceId, clock));
              && productFailureEventsTable.putRequests == old(productFailureEventsTable.putRequests) + [item]
              && productFailureEventsTable.items ==
                   if accepted then old(productFailureEventsTable.items)[item.Key() := item]
                   else old(productFailureEventsTable.items)
    {
      var productFailureEvent := BuildProductFailureEvent(dto, t, messageId, requestId, traceId, clock);
      ok := productFailureEventsTable.PutItem(FailureItem(productFailureEvent), accepted);
    }
  }
}
