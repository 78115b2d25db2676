/** The query side: choosing the request, consuming the (single-page) publisher, and
    assembling the page of API items; with what the store's page contract then guarantees. */
module EventsService {
  import opened Common
  import opened SortKeys
  import opened Events
  import opened Models
  import opened Aws
  import opened ApiDto
  import opened EventsRepo
  import EventRepo
  import FailureRepo

  /** A stored item the mapping constructor accepts: one of product-event shape with info. */
  predicate ApiMappable(x: StoredItem)
  {
    x.EventItem? && x.event.info.Some?
  }

  predicate AllMappable(items: seq<StoredItem>)
  {
    forall i :: 0 <= i < |items| ==> ApiMappable(items[i])
  }

  /** The items of one page mapped to API items, in order. */
  function ToApiDtos(items: seq<StoredItem>): (r: seq<ProductEventApiDto>)
    requires AllMappable(items)
    ensures |r| == |items|
    ensures forall i :: 0 <= i < |items| ==> r[i] == ToApiDto(items[i].event)
    decreases |items|
  {
    if items == [] then [] else [ToApiDto(items[0].event)] + ToApiDtos(items[1..])
  }

  predicate PagesMappable(pages: seq<Page>)
  {
    forall i :: 0 <= i < |pages| ==> AllMappable(pages[i].items)
  }

  /** The API items of a sequence of pages, concatenated page by page. */
  function ApiItems(pages: seq<Page>): seq<ProductEventApiDto>
    requires PagesMappable(pages)
    decreases |pages|
  {
    if pages == [] then [] else ApiItems(pages[..|pages| - 1]) + ToApiDtos(pages[|pages| - 1].items)
  }

  /** The sort key of the last page's last evaluated key, over the pages that have one. */
  function LastContinuation(pages: seq<Page>): (r: Option<string>)
    ensures r.None? <==> forall i :: 0 <= i < |pages| ==> pages[i].lastEvaluatedKey.None?
    ensures r.Some? ==> exists i :: && 0 <= i < |pages| && pages[i].lastEvaluatedKey.Some?
                                   && r.value == pages[i].lastEvaluatedKey.value.sk
                                   && forall j :: i < j < |pages| ==> pages[j].lastEvaluatedKey.None?
    decreases |pages|
  {
    if pages == [] then None
    else if pages[|pages| - 1].lastEvaluatedKey.Some? then Some(pages[|pages| - 1].lastEvaluatedKey.value.sk)
    else LastContinuation(pages[..|pages| - 1])
  }

  /** The request `getAll` sends. */
  function SelectQuery(eventType: string, exclusiveStartTimeStamp: Option<string>,
                       from: Option<string>, to: Option<string>, limit: int): (req: QueryRequest)
    ensures req.condition.SortBetween? <==> from.Some? && to.Some?
    ensures req.condition.partitionValue == PartitionPrefix + eventType && req.limit == limit
  {
    if from.Some? && to.Some? then RangeQuery(eventType, exclusiveStartTimeStamp, from.value, to.value, limit)
    else TypeQuery(eventType, exclusiveStartTimeStamp, limit)
  }

  /** The range query is used exactly when both bounds are given; partition, cursor and
      limit are passed through unchanged. */
  lemma SelectQueryChoice(eventType: string, cursor: Option<string>, from: Option<string>,
                          to: Option<string>, limit: int)
    ensures var req := SelectQuery(eventType, cursor, from, to, limit);
            && (req.condition.SortBetween? <==> from.Some? && to.Some?)
            && (req.condition.SortBetween? ==> req.condition.from == from.value && req.condition.to == to.value)
            && req.condition.partitionValue == PartitionPrefix + eventType
            && req.exclusiveStartKey == BuildExclusiveStartKey(PartitionPrefix + eventType, cursor)
            && req.limit == limit
  {
  }

  /** `getAll`.  `paginate` is the table's paginated answer to a request. */
  method GetAll(paginate: QueryRequest -> seq<Page>, eventType: string, exclusiveStartTimeStamp: Option<string>,
                from: Option<string>, to: Option<string>, limit: int) returns (result: ProductEventApiPageDto)
    requires PagesMappable(LimitOnePage(paginate(SelectQuery(eventType, exclusiveStartTimeStamp, from, to, limit))))
    ensures var pages := paginate(SelectQuery(eventType, exclusiveStartTimeStamp, from, to, limit));
            && result.items == (if pages == [] then [] else ToApiDtos(pages[0].items))
            && result.lastEvaluatedTimeStamp ==
                 (if pages != [] && pages[0].lastEvaluatedKey.Some? then Some(pages[0].lastEvaluatedKey.value.sk)
                  else None)
            && result.count == |result.items|
  {
    var publisher := if from.Some? && to.Some?
      then FindByTypeAndRange(paginate, eventType, exclusiveStartTimeStamp, from.value, to.value, limit)
      else FindByType(paginate, eventType, exclusiveStartTimeStamp, limit);
    var productEventApiDtoList: seq<ProductEventApiDto> := [];
    var lastEvaluatedTimeStamp: Option<string> := None;
    for i := 0 to |publisher|
      invariant PagesMappable(publisher[..i])
      invariant productEventApiDtoList == ApiItems(publisher[..i])
      invariant lastEvaluatedTimeStamp == LastContinuation(publisher[..i])
    {
      var productEventPage := publisher[i];
      assert publisher[..i + 1][..i] == publisher[..i];
      productEventApiDtoList := productEventApiDtoList + ToApiDtos(productEventPage.items);
      if productEventPage.lastEvaluatedKey.Some? {
        lastEvaluatedTimeStamp := Some(productEventPage.lastEvaluatedKey.value.sk);
      }
    }
    assert publisher[..|publisher|] == publisher;
    if publisher != [] {
      assert publisher[..0] == [];
    }
    result := ProductEventApiPageDto(productEventApiDtoList, lastEvaluatedTimeStamp, |productEventApiDtoList|);
  }

  // ---------------------------------------------------------------------------
  // What the store's page contract guarantees about the result
  // ---------------------------------------------------------------------------

  /** Continuing from a page's continuation key repeats nothing, returns only items strictly
      after it, and together with the first page skips no matching item. */
  lemma CursorContinuation(items: map<ItemKey, StoredItem>, eventType: string, cursor: Option<string>,
                           from: Option<string>, to: Option<string>, limit: int, nextLimit: int,
                           first: Page, next: Page)
    requires ValidPage(items, SelectQuery(eventType, cursor, from, to, limit), first)
    requires first.lastEvaluatedKey.Some?
    requires ValidPage(items, SelectQuery(eventType, Some(first.lastEvaluatedKey.value.sk), from, to, nextLimit), next)
    ensures forall x :: x in next.items ==> LexLess(first.lastEvaluatedKey.value.sk, x.Key().sk)
    ensures forall x :: x in next.items ==> x !in first.items
    ensures forall k :: k in items && Matches(SelectQuery(eventType, cursor, from, to, limit), k)
              && (next.lastEvaluatedKey.Some? ==> LexLe(k.sk, next.lastEvaluatedKey.value.sk))
              ==> items[k] in first.items || items[k] in next.items
  {
    var c := first.lastEvaluatedKey.value.sk;
    var req1 := SelectQuery(eventType, cursor, from, to, limit);
    var req2 := SelectQuery(eventType, Some(c), from, to, nextLimit);
    var n := |first.items|;
    forall x | x in next.items ensures LexLess(c, x.Key().sk) && x !in first.items {
      var j :| 0 <= j < |next.items| && next.items[j] == x;
      assert Matches(req2, x.Key());
      if x in first.items {
        var i :| 0 <= i < n && first.items[i] == x;
        if i < n - 1 {
          assert LexLess(first.items[i].Key().sk, first.items[n - 1].Key().sk);
        }
        LexLeNotAfter(x.Key().sk, c);
      }
    }
    forall k | k in items && Matches(req1, k) && (next.lastEvaluatedKey.Some? ==> LexLe(k.sk, next.lastEvaluatedKey.value.sk))
      ensures items[k] in first.items || items[k] in next.items
    {
      if !LexLe(k.sk, c) {
        LexLessTotal(k.sk, c);
        assert Matches(req2, k);
      }
    }
  }

  /** Records keyed by their creation time, with sort keys of one width, come back in
      ascending creation order. */
  lemma WrittenRecordsAscend(items: map<ItemKey, StoredItem>, req: QueryRequest, page: Page)
    requires ValidPage(items, req, page)
    requires forall i :: 0 <= i < |page.items| ==> ParseDecimal(page.items[i].Key().sk) == Some(page.items[i].CreatedAt())
    requires forall i, j :: 0 <= i < |page.items| && 0 <= j < |page.items| ==>
               |page.items[i].Key().sk| == |page.items[j].Key().sk|
    ensures forall i, j :: 0 <= i < j < |page.items| ==> page.items[i].CreatedAt() < page.items[j].CreatedAt()
  {
    forall i, j | 0 <= i < j < |page.items| ensures page.items[i].CreatedAt() < page.items[j].CreatedAt() {
      var a, b := page.items[i], page.items[j];
      ParseDecimalInverse(a.Key().sk, a.CreatedAt());
      ParseDecimalInverse(b.Key().sk, b.CreatedAt());
      DecimalOrder(a.CreatedAt(), b.CreatedAt());
    }
  }

  /** Neither write path produces a record the mapping constructor accepts: product-event
      records are written without info, failure records have the other shape. */
  lemma WrittenRecordsNotMappable(dto: ProductEventDto, failure: ProductFailureEventDto, t: ProductEventType,
                                  messageId: string, requestId: string, traceId: string, clock: Clock)
    ensures !ApiMappable(EventItem(EventRepo.BuildProductEvent(dto, t, messageId, requestId, traceId, clock)))
    ensures !ApiMappable(FailureItem(FailureRepo.BuildProductFailureEvent(failure, t, messageId, requestId, traceId, clock)))
  {
  }

  /** So over a table holding only such records, `getAll` has its precondition met only when
      nothing matches: any matching item puts an unmappable item on the first page. */
  lemma UnmappableRecordsReachFirstPage(items: map<ItemKey, StoredItem>, req: QueryRequest, page: Page, k: ItemKey)
    requires ValidPage(items, req, page)
    requires forall k' :: k' in items ==> !ApiMappable(items[k'])
    requires k in items && Matches(req, k)
    ensures page.items != [] && !PagesMappable([page])
  {
    if page.lastEvaluatedKey.None? {
      assert items[k] in page.items;
    }
    var x := page.items[0];
    assert x.Key() in items && items[x.Key()] == x;
    assert [page][0].items[0] == x;
  }
}
