/** The records written to the events table, their keys, and the clock readings a
    record builder takes. */
module Models {
  import opened Common
  import opened Events

  datatype ProductInfoEvent = ProductInfoEvent(
    id: string, code: string, price: Price, messageId: string, requestId: string, traceId: string)

  /** A product-event record; `info` is nullable. */
  datatype ProductEvent = ProductEvent(
    pk: string, sk: string, createdAt: nat, ttl: nat, email: string, info: Option<ProductInfoEvent>)

  datatype ProductInfoFailureEvent = ProductInfoFailureEvent(
    id: Option<string>, requestId: string, messageId: string, status: int, error: string, traceId: string)

  datatype ProductFailureEvent = ProductFailureEvent(
    pk: string, sk: string, createdAt: nat, ttl: nat, email: string, info: ProductInfoFailureEvent)

  /** The table's primary key: partition key and sort key. */
  datatype ItemKey = ItemKey(pk: string, sk: string)

  /** An item of the events table, which holds records of both shapes. */
  datatype StoredItem = EventItem(event: ProductEvent) | FailureItem(failure: ProductFailureEvent)
  {
    function Key(): ItemKey
    {
      match this
      case EventItem(e) => ItemKey(e.pk, e.sk)
      case FailureItem(f) => ItemKey(f.pk, f.sk)
    }

    function CreatedAt(): nat
    {
      match this
      case EventItem(e) => e.createdAt
      case FailureItem(f) => f.createdAt
    }
  }

  /** The two `Instant.now()` readings a record builder makes: the first in epoch
      milliseconds, the second truncated to epoch seconds. */
  datatype Clock = Clock(epochMilli: nat, epochSecond: nat)

  /** Records expire this many seconds after the second clock reading. */
  const TtlSeconds: nat := 300

  /** The partition prefix shared by every product record. */
  const PartitionPrefix: string := "#product_"
}
