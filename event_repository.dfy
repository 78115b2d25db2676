/** The repository the product-event consumer writes through. */
module EventRepo {
  import opened Common
  import opened SortKeys
  import opened Events
  import opened Models
  import opened Aws

  /** The record `create` puts: keyed by event type and the millisecond timestamp, expiring
      300 seconds after the second clock reading, carrying the payload's email and no info. */
  function BuildProductEvent(dto: ProductEventDto, t: ProductEventType, messageId: string,
                             requestId: string, traceId: string, clock: Clock): (r: ProductEvent)
    ensures r.pk == PartitionPrefix + Name(t)
    ensures r.createdAt == clock.epochMilli && ParseDecimal(r.sk) == Some(r.createdAt)
    ensures r.ttl == clock.epochSecond + TtlSeconds
    ensures r.email == dto.email && r.info.None?
  {
    DecimalRoundTrip(clock.epochMilli);
    ProductEvent(PartitionPrefix + Name(t), DecimalOf(clock.epochMilli), clock.epochMilli,
                 clock.epochSecond + TtlSeconds, dto.email, None)
  }

  /** The info record `create` also builds, and then never attaches to anything. */
  function BuildProductInfoEvent(dto: ProductEventDto, messageId: string, requestId: string,
                                 traceId: string): (r: ProductInfoEvent)
    ensures r.id == dto.id && r.code == dto.code && r.price == dto.price
    ensures r.messageId == messageId && r.requestId == requestId && r.traceId == traceId
  {
    ProductInfoEvent(dto.id, dto.code, dto.price, messageId, requestId, traceId)
  }

  /** Two records land under the same key exactly when they have the same event type and
      the same millisecond, so a second write in the same millisecond overwrites the first. */
  lemma KeyIdentifiesTypeAndMillisecond(
    d1: ProductEventDto, t1: ProductEventType, m1: string, r1: string, x1: string, c1: Clock,
    d2: ProductEventDto, t2: ProductEventType, m2: string, r2: string, x2: string, c2: Clock)
    ensures EventItem(BuildProductEvent(d1, t1, m1, r1, x1, c1)).Key()
            == EventItem(BuildProductEvent(d2, t2, m2, r2, x2, c2)).Key()
            <==> t1 == t2 && c1.epochMilli == c2.epochMilli
  {
    var e1, e2 := BuildProductEvent(d1, t1, m1, r1, x1, c1), BuildProductEvent(d2, t2, m2, r2, x2, c2);
    if e1.pk == e2.pk && e1.sk == e2.sk {
      assert Name(t1) == e1.pk[|PartitionPrefix|..] == e2.pk[|PartitionPrefix|..] == Name(t2);
      ValueOfName(Name(t1), t1);
      ValueOfName(Name(t1), t2);
      DecimalInjective(c1.epochMilli, c2.epochMilli);
    }
  }

  class ProductEventRepository {
    const eventsTable: EventsTable

    constructor (eventsTable: EventsTable)
      ensures this.eventsTable == eventsTable
    {
      this.eventsTable := eventsTable;
    }

    /** Builds the record and issues exactly one put of it; `accepted` is the table's answer. */
    method Create(dto: ProductEventDto, t: ProductEventType, messageId: string, requestId: string,
                  traceId: string, clock: Clock, accepted: bool) returns (ok: bool)
      modifies eventsTable
      ensures ok == accepted
      ensures var item := EventItem(BuildProductEvent(dto, t, messageId, requestId, traceId, clock));
              && eventsTable.putRequests == old(eventsTable.putRequests) + [item]
              && eventsTable.items == if accepted then old(eventsTable.items)[item.Key() := item]
                                      else old(eventsTable.items)
    {
      var productEvent := BuildProductEvent(dto, t, messageId, requestId, traceId, clock);
      var productInfoEvent := BuildProductInfoEvent(dto, messageId, requestId, traceId);
      ok := eventsTable.PutItem(EventItem(productEvent), accepted);
    }
  }
}
