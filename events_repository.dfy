/** The repository the query side reads through: partition and start keys, the two query
    shapes, and a `create` equal to the product-event consumer's. */
module EventsRepo {
  import opened Common
  import opened SortKeys
  import opened Events
  import opened Models
  import opened Aws
  import EventRepo

  /** The partition key: the fixed prefix, followed by the type name unchanged. */
  function BuildProductPartitionKey(productEventType: string): (pk: string)
    ensures |pk| == |PartitionPrefix| + |productEventType|
    ensures pk[..|PartitionPrefix|] == PartitionPrefix && pk[|PartitionPrefix|..] == productEventType
  {
    PartitionPrefix + productEventType
  }

  /** Different type names lie in different partitions. */
  lemma PartitionKeyInjective(a: string, b: string)
    requires BuildProductPartitionKey(a) == BuildProductPartitionKey(b)
    ensures a == b
  {
    assert a == BuildProductPartitionKey(a)[|PartitionPrefix|..];
  }

  /** No start key without a cursor; otherwise exactly the pair (partition key, cursor). */
  function BuildExclusiveStartKey(pk: string, exclusiveStartTimestamp: Option<string>): (k: Option<ItemKey>)
    ensures k.None? <==> exclusiveStartTimestamp.None?
    ensures k.Some? ==> k.value == ItemKey(pk, exclusiveStartTimestamp.value)
  {
    if exclusiveStartTimestamp.Some? then Some(ItemKey(pk, exclusiveStartTimestamp.value)) else None
  }

  /** The request `findByType` sends: the whole partition, after the cursor. */
  function TypeQuery(productEventType: string, exclusiveStartTimestamp: Option<string>, limit: int): (req: QueryRequest)
    ensures req.condition.KeyEqualTo? && req.condition.partitionValue == PartitionPrefix + productEventType
    ensures req.exclusiveStartKey.Some? <==> exclusiveStartTimestamp.Some?
    ensures req.exclusiveStartKey.Some? ==>
              req.exclusiveStartKey.value == ItemKey(PartitionPrefix + productEventType, exclusiveStartTimestamp.value)
    ensures req.limit == limit
  {
    var pk := BuildProductPartitionKey(productEventType);
    QueryRequest(KeyEqualTo(pk), BuildExclusiveStartKey(pk, exclusiveStartTimestamp), limit)
  }

  /** The request `findByTypeAndRange` sends: the sort keys between `from` and `to`, after the cursor. */
  function RangeQuery(productEventType: string, exclusiveStartTimestamp: Option<string>,
                      from: string, to: string, limit: int): (req: QueryRequest)
    ensures req.condition.SortBetween? && req.condition.partitionValue == PartitionPrefix + productEventType
    ensures req.condition.from == from && req.condition.to == to
    ensures req.exclusiveStartKey.Some? <==> exclusiveStartTimestamp.Some?
    ensures req.exclusiveStartKey.Some? ==>
              req.exclusiveStartKey.value == ItemKey(PartitionPrefix + productEventType, exclusiveStartTimestamp.value)
    ensures req.limit == limit
  {
    var pk := BuildProductPartitionKey(productEventType);
    QueryRequest(SortBetween(pk, from, to), BuildExclusiveStartKey(pk, exclusiveStartTimestamp), limit)
  }

  /** What the type query selects: its partition, strictly after the cursor. */
  lemma TypeQuerySelects(productEventType: string, cursor: Option<string>, limit: int, k: ItemKey)
    ensures Matches(TypeQuery(productEventType, cursor, limit), k) <==>
            k.pk == PartitionPrefix + productEventType && (cursor.Some? ==> LexLess(cursor.value, k.sk))
    ensures TypeQuery(productEventType, cursor, limit).limit == limit
  {
  }

  /** What the range query selects: its partition, sort keys in [from, to], strictly after the cursor. */
  lemma RangeQuerySelects(productEventType: string, cursor: Option<string>, from: string, to: string,
                          limit: int, k: ItemKey)
    ensures Matches(RangeQuery(productEventType, cursor, from, to, limit), k) <==>
            && k.pk == PartitionPrefix + productEventType
            && LexLe(from, k.sk) && LexLe(k.sk, to)
            && (cursor.Some? ==> LexLess(cursor.value, k.sk))
    ensures RangeQuery(productEventType, cursor, from, to, limit).limit == limit
  {
  }

  /** The paginator cut down to its first page. */
  function LimitOnePage(pages: seq<Page>): (r: seq<Page>)
    ensures |r| <= 1 && r <= pages && (r == [] <==> pages == [])
  {
    if pages == [] then [] else [pages[0]]
  }

  /** `findByType`: at most the first page of the table's answer to the type query. */
  function FindByType(paginate: QueryRequest -> seq<Page>, productEventType: string,
                      exclusiveStartTimestamp: Option<string>, limit: int): (r: seq<Page>)
    ensures var all := paginate(TypeQuery(productEventType, exclusiveStartTimestamp, limit));
            |r| <= 1 && r <= all && (r == [] <==> all == [])
  {
    LimitOnePage(paginate(TypeQuery(productEventType, exclusiveStartTimestamp, limit)))
  }

  /** `findByTypeAndRange`: at most the first page of the table's answer to the range query. */
  function FindByTypeAndRange(paginate: QueryRequest -> seq<Page>, productEventType: string,
                              exclusiveStartTimestamp: Option<string>, from: string, to: string,
                              limit: int): (r: seq<Page>)
    ensures var all := paginate(RangeQuery(productEventType, exclusiveStartTimestamp, from, to, limit));
            |r| <= 1 && r <= all && (r == [] <==> all == [])
  {
    LimitOnePage(paginate(RangeQuery(productEventType, exclusiveStartTimestamp, from, to, limit)))
  }

  /** This repository's `create` builds its partition key with BuildProductPartitionKey. */
  function BuildProductEvent(dto: ProductEventDto, t: ProductEventType, messageId: string,
                             requestId: string, traceId: string, clock: Clock): (r: ProductEvent)
    ensures r.pk == PartitionPrefix + Name(t)
    ensures r.createdAt == clock.epochMilli && ParseDecimal(r.sk) == Some(r.createdAt)
    ensures r.ttl == clock.epochSecond + TtlSeconds
    ensures r.email == dto.email && r.info.None?
  {
    DecimalRoundTrip(clock.epochMilli);
    ProductEvent(BuildProductPartitionKey(Name(t)), DecimalOf(clock.epochMilli), clock.epochMilli,
                 clock.epochSecond + TtlSeconds, dto.email, None)
  }

  /** Both product-event repositories write the same record. */
  lemma BuildersAgree(dto: ProductEventDto, t: ProductEventType, messageId: string, requestId: string,
                      traceId: string, clock: Clock)
    ensures BuildProductEvent(dto, t, messageId, requestId, traceId, clock)
            == EventRepo.BuildProductEvent(dto, t, messageId, requestId, traceId, clock)
  {
  }

  /** A record written for type t is read by the queries for t's name and by no other
      type's query: reads and writes for one type share one partition. */
  lemma WrittenRecordInOwnPartition(dto: ProductEventDto, t: ProductEventType, messageId: string,
                                    requestId: string, traceId: string, clock: Clock,
                                    u: ProductEventType, limit: int)
    ensures var k := EventItem(EventRepo.BuildProductEvent(dto, t, messageId, requestId, traceId, clock)).Key();
            Matches(TypeQuery(Name(u), None, limit), k) <==> t == u
  {
    var k := EventItem(EventRepo.BuildProductEvent(dto, t, messageId, requestId, traceId, clock)).Key();
    if Matches(TypeQuery(Name(u), None, limit), k) {
      PartitionKeyInjective(Name(t), Name(u));
      ValueOfName(Name(t), t);
      ValueOfName(Name(t), u);
    }
  }

  class ProductEventsRepository {
    const eventsTable: EventsTable

    constructor (eventsTable: EventsTable)
      ensures this.eventsTable == eventsTable
    {
      this.eventsTable := eventsTable;
    }

    /** Builds the record and issues exactly one put of it; `accepted` is the table's answer. */
    method Create(dto: ProductEventDto, t: ProductEventType, messageId: string, requestId: string,
                  traceId: string, clock: Clock, accepted: bool) returns (ok: bool)
      modifies eventsTable
      ensures ok == accepted
      ensures var item := EventItem(BuildProductEvent(dto, t, messageId, requestId, traceId, clock));
              && eventsTable.putRequests == old(eventsTable.putRequests) + [item]
              && eventsTable.items == if accepted then old(eventsTable.items)[item.Key() := item]
                                      else old(eventsTable.items)
    {
      var productEvent := BuildProductEvent(dto, t, messageId, requestId, traceId, clock);
      var productInfoEvent := EventRepo.BuildProductInfoEvent(dto, messageId, requestId, traceId);
      ok := eventsTable.PutItem(EventItem(productEvent), accepted);
    }
  }
}
