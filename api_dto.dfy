/** The shapes the query endpoint returns, and the field-copy mapping from a stored record. */
module ApiDto {
  import opened Common
  import opened Events
  import opened Models

  datatype ProductEventApiDto = ProductEventApiDto(
    productId: string, code: string, price: Price, requestId: string, email: string, createdAt: nat)

  /** A page of results: the items, the continuation timestamp if any, and the item count. */
  datatype ProductEventApiPageDto = ProductEventApiPageDto(
    items: seq<ProductEventApiDto>, lastEvaluatedTimeStamp: Option<string>, count: nat)

  /** The mapping constructor.  It dereferences `info`, so a record without one is outside
      its domain. */
  function ToApiDto(e: ProductEvent): (d: ProductEventApiDto)
    requires e.info.Some?
    ensures d.productId == e.info.value.id && d.code == e.info.value.code
    ensures d.price == e.info.value.price && d.requestId == e.info.value.requestId
    ensures d.email == e.email && d.createdAt == e.createdAt
  {
    ProductEventApiDto(e.info.value.id, e.info.value.code, e.info.value.price, e.info.value.requestId,
                       e.email, e.createdAt)
  }
}
