/** What arrives on the queues: the event-type enumeration, the two payload records,
    the notification envelope, and the JSON decoder treated as opaque partial functions. */
module Events {
  import opened Common

  /** The event-type enumeration; `Name` gives the constant's Java name. */
  datatype ProductEventType = ProductCreated | ProductUpdated | ProductDeleted | ProductFailure

  function Name(t: ProductEventType): string
  {
    match t
    case ProductCreated => "PRODUCT_CREATED"
    case ProductUpdated => "PRODUCT_UPDATED"
    case ProductDeleted => "PRODUCT_DELETED"
    case ProductFailure => "PRODUCT_FAILURE"
  }

  /** Enum `valueOf`: the constant with exactly this name, or None where Java throws. */
  function ValueOf(s: string): (r: Option<ProductEventType>)
    ensures r.Some? ==> Name(r.value) == s
  {
    if s == "PRODUCT_CREATED" then Some(ProductCreated)
    else if s == "PRODUCT_UPDATED" then Some(ProductUpdated)
    else if s == "PRODUCT_DELETED" then Some(ProductDeleted)
    else if s == "PRODUCT_FAILURE" then Some(ProductFailure)
    else None
  }

  /** `valueOf` accepts exactly the four names, each naming its own constant. */
  lemma ValueOfName(s: string, t: ProductEventType)
    ensures ValueOf(s) == Some(t) <==> Name(t) == s
    ensures ValueOf(s).None? <==> (forall u :: Name(u) != s)
  {
    if ValueOf(s).None? {
      forall u ensures Name(u) != s {
        match u
        case ProductCreated =>
        case ProductUpdated =>
        case ProductDeleted =>
        case ProductFailure =>
      }
    } else {
      assert Name(ValueOf(s).value) == s;
    }
  }

  /** A float carried as its bit pattern and never interpreted. */
  datatype Price = FloatBits(bits: bv32)

  /** Product-event payload. */
  datatype ProductEventDto = ProductEventDto(id: string, code: string, email: string, price: Price)

  /** Product-failure payload; its id may be absent. */
  datatype ProductFailureEventDto =
    ProductFailureEventDto(id: Option<string>, error: string, email: string, status: int)

  datatype MessageAttributes = MessageAttributes(requestId: string, traceId: string, eventType: string)

  /** The notification envelope around every payload. */
  datatype SnsMessageDto = SnsMessageDto(messageId: string, message: string, messageAttributes: MessageAttributes)

  type JsonError = string

  /** The JSON decoder, one partial decoding function per target class. */
  datatype ObjectMapper = ObjectMapper(
    readEnvelope: string -> Result<SnsMessageDto, JsonError>,
    readProductEvent: string -> Result<ProductEventDto, JsonError>,
    readProductFailureEvent: string -> Result<ProductFailureEventDto, JsonError>)
}
