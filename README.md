# Audit service for product events: a Dafny model

The audit service listens to two message queues that carry product notifications. The
product-events queue carries created, updated and deleted events. The product-failure-events
queue carries failure reports. The service stores each notification its consumer accepts in one key-value table.
A record's partition key is `#product_` followed by the event type's name. Its sort key is the
decimal rendering of the creation time in milliseconds. Each record carries an expiry 300 seconds
after a clock reading taken when it is built. A read side queries one event-type partition, optionally within a sort-key range,
resuming after a cursor. It returns one page mapped to API records, together with the cursor
for the next page.

The model has one module per source file of the core:

- `Pipeline`, `EventsConsumer` and `FailureConsumer` model the two queue consumers.
  - `Pipeline` states one drain pass as functions on the queue's and the table's state:
    - `Route` takes a message through the envelope, the event-type lookup, the feed's accepted
      types and the payload decoding;
    - `Step` puts the record, then deletes the message;
    - `RunBatch` processes one batch;
    - `Drain` receives until the queue answers with no message.
  - The two consumer classes hold the queue and the repository as objects whose state their
    methods change. Each pass method is proved equal to `Drain` on the state at entry. Each
    message handler is proved equal to `Step`.
- `EventRepo` and `FailureRepo` model the two write repositories. They build the stored records
  and put them.
- `EventsRepo` models the query repository: the partition key, the exclusive start key, the two
  finders, and the cap of one page.
- `EventsService` builds the single page the read side returns. `ApiDto` maps a stored record
  to its API form.
- `Aws` holds the queue and the table the code talks to.
  - The queue is an oracle. `pending` lists the batches successive receives return, and an
    exhausted oracle answers with no message.
  - Each delivered message carries the clock readings taken while it is handled, and whether
    its put and its delete succeed.
  - The table keeps a map from key to record and a log of put requests.
  - `ValidPage` states what a query page promises: ascending sort keys, only matching keys, at
    most `limit` items, and no skipped key before the continuation key.
- `SortKeys` holds the decimal rendering of a timestamp and the store's lexicographic
  sort-key order. `Events` and `Models` hold the message and record types.

Two behaviours of the code that a reader might not expect are reproduced as written:

- Expiry time: `ttl` is not derived from the creation timestamp. The code reads the clock a
  second time, in epoch seconds, and adds 300 seconds to that reading. The model therefore
  takes both readings as inputs.
- The product-event builders assemble a `ProductInfoEvent` and never attach it to the stored
  record. The model reproduces this: `EventRepo.BuildProductEvent` and
  `EventsRepo.BuildProductEvent` always store `info` as absent.
- As a consequence, `EventsService.WrittenRecordsNotMappable` states that no record either
  write path produces can be mapped to an API record.
- `EventsService.UnmappableRecordsReachFirstPage` states that when the table holds only such
  records, any query that matches one of them hands the mapping a page it cannot map.

## Model

| member | source | states |
|---|---|---|
| Events.ValueOfName | src/main/java/com/dobrev/auditservice/products/services/ProductEventsConsumer.java:77-78 | looking an event-type name up yields t exactly when t's name is that string, and yields nothing exactly when no constant has that name |
| Events.ValueOf | src/main/java/com/dobrev/auditservice/products/services/ProductEventsConsumer.java:77-78 | a name that is looked up successfully is the found constant's own name; `Events.ValueOfName` adds the converse and the failure case |
| Pipeline.AcceptSetsComplementary | src/main/java/com/dobrev/auditservice/products/services/ProductFailureEventsConsumer.java:80-91 | the failure consumer accepts exactly the types the product-events consumer rejects |
| Pipeline.RoutedExactly | src/main/java/com/dobrev/auditservice/products/services/ProductEventsConsumer.java:58-95 | a message is routed iff its envelope decodes, its type name is a constant the feed accepts, and its payload decodes; the routed record lies in that type's partition, is created at the first clock reading, and is failure-shaped exactly on the failure feed |
| Pipeline.Route | src/main/java/com/dobrev/auditservice/products/services/ProductEventsConsumer.java:58-95 | a routed record is created at the first clock reading and has the feed's shape; a routing error is never a commit failure, and an invalid-event error names a type the feed does not accept; `Pipeline.RoutedExactly` gives the full condition |
| Pipeline.FailureRecordCarriesEnvelopeIds | src/main/java/com/dobrev/auditservice/products/services/ProductFailureEventsConsumer.java:64-85 | a failure-feed record is the failure repository's record built from the decoded payload, the looked-up type, the envelope's message id, the request and trace attribute values unchanged, and the message's clock readings; its info carries those ids and the payload's product id |
| Pipeline.ProductRecordBuiltFromEnvelope | src/main/java/com/dobrev/auditservice/products/services/ProductEventsConsumer.java:65-87 | a product-feed record is built from the decoded payload, the looked-up type, the envelope's message id and the request and trace attribute values unchanged, and the message's clock readings |
| Pipeline.NoMessageRoutedOnBothFeeds | src/main/java/com/dobrev/auditservice/products/services/ProductEventsConsumer.java:81-94 | no message is routed by both consumers |
| Pipeline.FeedPass | src/main/java/com/dobrev/auditservice/products/services/ProductEventsConsumer.java:45-48 | a pass of the product-events feed asks for 5 messages per receive and a pass of the failure feed for 10, and both route with Route |
| Pipeline.Step | src/main/java/com/dobrev/auditservice/products/services/ProductEventsConsumer.java:97-103 | handling one message never receives and never changes the batches still pending |
| Pipeline.CommitIssuedIffRouted | src/main/java/com/dobrev/auditservice/products/services/ProductEventsConsumer.java:80-108 | the delete for a message's receipt handle is issued iff the message is routed, whether or not the put succeeds; an unrouted message changes nothing and fails with its routing error; the message is done iff it is routed and both requests succeed; the table holds the record at its key iff the put succeeded |
| Pipeline.RunBatchEffects | src/main/java/com/dobrev/auditservice/products/services/ProductEventsConsumer.java:57-116 | a batch is processed in order up to and including its first message that is not done; every earlier message is done; in the sequential model, the put and delete logs grow by exactly the requests of the routed messages processed, and the table ends as the successful puts among them upsert it, in order |
| Pipeline.RunBatch | src/main/java/com/dobrev/auditservice/products/services/ProductEventsConsumer.java:57 | processing a batch never receives and never changes the batches still pending |
| Pipeline.AfterReceive | src/main/java/com/dobrev/auditservice/products/services/ProductEventsConsumer.java:55-57 | the rest of a pass after a receive only adds to the receive log |
| Pipeline.Drain | src/main/java/com/dobrev/auditservice/products/services/ProductEventsConsumer.java:53-55 | a pass always issues at least one receive, and the earlier receive log is a proper prefix of the new one |
| Pipeline.DrainReceives | src/main/java/com/dobrev/auditservice/products/services/ProductEventsConsumer.java:53-117 | a pass issues n >= 1 receives, each for the feed's batch size, and consumes n batches; every batch but the last was non-empty and had every message done; the last one was empty iff the pass ended without a failure, and on a failure it holds a message that was not done, so no receive follows the failing batch |
| Pipeline.DrainEffects | src/main/java/com/dobrev/auditservice/products/services/ProductEventsConsumer.java:53-117 | a pass processes the messages it receives in order, up to and including the first one that is not done; in the sequential model, its puts and deletes are exactly those of the routed messages processed, and the table ends as the successful puts among them upsert it, in order, so a message that is not routed is never put, stored or deleted; a pass that drains has done every message it received |
| Pipeline.FeedPassStoresOnlyItsTypes | src/main/java/com/dobrev/auditservice/products/services/ProductFailureEventsConsumer.java:76-91 | a pass only appends to its table's put log records of its feed's shape, in the partition of one of its feed's accepted types |
| EventsConsumer.ProductEventsConsumer.HandleMessage | src/main/java/com/dobrev/auditservice/products/services/ProductEventsConsumer.java:57-116 | the new queue and table state and the outcome are those of Step on the product-events feed |
| EventsConsumer.ProductEventsConsumer.ReceiveProductEventsMessages | src/main/java/com/dobrev/auditservice/products/services/ProductEventsConsumer.java:52-119 | the new queue and table state and the outcome are those of Drain on the product-events feed from the state at entry |
| FailureConsumer.ProductFailureEventsConsumer.HandleMessage | src/main/java/com/dobrev/auditservice/products/services/ProductFailureEventsConsumer.java:56-112 | the new queue and table state and the outcome are those of Step on the failure feed |
| FailureConsumer.ProductFailureEventsConsumer.ReceiveProductFailureEventsMessages | src/main/java/com/dobrev/auditservice/products/services/ProductFailureEventsConsumer.java:51-115 | the new queue and table state and the outcome are those of Drain on the failure feed from the state at entry |
| Aws.MessageQueue.ReceiveMessage | src/main/java/com/dobrev/auditservice/products/services/ProductEventsConsumer.java:55 | a receive returns the next pending batch (none once exhausted), removes it, and logs the requested maximum |
| Aws.MessageQueue.DeleteMessage | src/main/java/com/dobrev/auditservice/products/services/ProductEventsConsumer.java:97-101 | a delete logs the receipt handle and reports the queue's answer, leaving the pending batches alone |
| Aws.EventsTable.PutItem | src/main/java/com/dobrev/auditservice/products/repositories/ProductEventRepository.java:53 | a put logs the record and, if accepted, stores it at its key, keeping every record at its own key |
| SortKeys.DecimalOf | src/main/java/com/dobrev/auditservice/products/repositories/ProductEventRepository.java:38 | the rendering of a timestamp is a canonical decimal numeral (digits, no leading zero), which is one digit long iff the value is below 10 |
| SortKeys.DecimalRoundTrip | src/main/java/com/dobrev/auditservice/products/repositories/ProductEventRepository.java:38-39 | parsing the sort key gives back the creation timestamp |
| SortKeys.ParseDecimalInverse | src/main/java/com/dobrev/auditservice/products/repositories/ProductEventRepository.java:38 | a string parses to n iff it is n's rendering |
| SortKeys.DecimalInjective | src/main/java/com/dobrev/auditservice/products/repositories/ProductEventRepository.java:38 | distinct timestamps get distinct sort keys |
| SortKeys.DecimalOrder | src/main/java/com/dobrev/auditservice/products/repositories/ProductEventsRepository.java:78-81 | for renderings of equal width, lexicographic order is numeric order, in both directions |
| EventRepo.BuildProductEvent | src/main/java/com/dobrev/auditservice/products/repositories/ProductEventRepository.java:33-42 | the record's partition is `#product_` plus the type name, its sort key parses to its creation time (the first clock reading), its expiry is the second reading plus 300 s, its email is the payload's, and it carries no info |
| EventRepo.BuildProductInfoEvent | src/main/java/com/dobrev/auditservice/products/repositories/ProductEventRepository.java:44-51 | the info built holds the payload's id, code and price and the given message, request and trace ids; `EventRepo.BuildProductEvent` (info absent) shows it is never attached |
| EventRepo.KeyIdentifiesTypeAndMillisecond | src/main/java/com/dobrev/auditservice/products/repositories/ProductEventRepository.java:37-38 | two built records have the same key iff they have the same event type and the same creation millisecond |
| EventRepo.ProductEventRepository.Create | src/main/java/com/dobrev/auditservice/products/repositories/ProductEventRepository.java:30-54 | exactly one put of the built record is issued; the table changes iff the put is accepted; the outcome is the store's answer |
| FailureRepo.BuildProductInfoFailureEvent | src/main/java/com/dobrev/auditservice/products/repositories/ProductFailureEventsRepository.java:34-41 | the failure info holds the payload's id, error and status and the given message, request and trace ids |
| FailureRepo.BuildProductFailureEvent | src/main/java/com/dobrev/auditservice/products/repositories/ProductFailureEventsRepository.java:31-50 | partition, sort key and timestamps as for product events; the info carries the payload's id, error and status and the given message, request and trace ids |
| FailureRepo.ProductFailureEventsRepository.Create | src/main/java/com/dobrev/auditservice/products/repositories/ProductFailureEventsRepository.java:28-53 | exactly one put of the built failure record is issued; the table changes iff the put is accepted; the outcome is the store's answer |
| EventsRepo.BuildProductPartitionKey | src/main/java/com/dobrev/auditservice/products/repositories/ProductEventsRepository.java:88-90 | the partition key is the prefix `#product_` followed by the type name unchanged, so the name can be read back from the key |
| EventsRepo.PartitionKeyInjective | src/main/java/com/dobrev/auditservice/products/repositories/ProductEventsRepository.java:88-90 | different type names give different partition keys |
| EventsRepo.BuildExclusiveStartKey | src/main/java/com/dobrev/auditservice/products/repositories/ProductEventsRepository.java:92-98 | there is a start key iff a cursor is given, and it is the partition with the cursor as sort key |
| EventsRepo.TypeQuery | src/main/java/com/dobrev/auditservice/products/repositories/ProductEventsRepository.java:67-71 | the request is a key-equality condition on the type's partition, has a start key iff a cursor is given (then the partition with the cursor as sort key), and carries the caller's limit |
| EventsRepo.RangeQuery | src/main/java/com/dobrev/auditservice/products/repositories/ProductEventsRepository.java:78-84 | the request is a between condition on the type's partition with the given bounds, has the same start key as the type query, and carries the caller's limit |
| EventsRepo.TypeQuerySelects | src/main/java/com/dobrev/auditservice/products/repositories/ProductEventsRepository.java:65-73 | the type query selects exactly the keys of the type's partition after the cursor, with the caller's limit |
| EventsRepo.RangeQuerySelects | src/main/java/com/dobrev/auditservice/products/repositories/ProductEventsRepository.java:75-86 | the range query selects exactly the keys of the type's partition within the closed sort-key range and after the cursor, with the caller's limit |
| EventsRepo.LimitOnePage | src/main/java/com/dobrev/auditservice/products/repositories/ProductEventsRepository.java:72 | at most the first page of the response is kept, and none only when the response has none |
| EventsRepo.FindByType | src/main/java/com/dobrev/auditservice/products/repositories/ProductEventsRepository.java:65-73 | the result is at most one page, a prefix of the store's answer to the type query, and empty only if that answer is |
| EventsRepo.FindByTypeAndRange | src/main/java/com/dobrev/auditservice/products/repositories/ProductEventsRepository.java:75-86 | the result is at most one page, a prefix of the store's answer to the range query, and empty only if that answer is |
| EventsRepo.BuildProductEvent | src/main/java/com/dobrev/auditservice/products/repositories/ProductEventsRepository.java:42-51 | the record's partition is `#product_` plus the type name, its sort key parses to its creation time, its expiry is the second reading plus 300 s, its email is the payload's, and it carries no info |
| EventsRepo.BuildersAgree | src/main/java/com/dobrev/auditservice/products/repositories/ProductEventsRepository.java:39-63 | this repository's create builds the same record as the write repository's |
| EventsRepo.WrittenRecordInOwnPartition | src/main/java/com/dobrev/auditservice/products/repositories/ProductEventsRepository.java:65-69 | a written record is selected by the type query of type u (without a cursor) iff it was written with type u |
| EventsRepo.ProductEventsRepository.Create | src/main/java/com/dobrev/auditservice/products/repositories/ProductEventsRepository.java:39-63 | exactly one put of the built record is issued; the table changes iff the put is accepted |
| ApiDto.ToApiDto | src/main/java/com/dobrev/auditservice/products/dto/ProductEventApiDto.java:14-23 | the API record takes product id, code, price and request id from the info, and email and creation time from the record |
| EventsService.ToApiDtos | src/main/java/com/dobrev/auditservice/products/services/ProductEventsService.java:33 | the page's records are mapped one for one, in order |
| EventsService.SelectQuery | src/main/java/com/dobrev/auditservice/products/services/ProductEventsService.java:27-29 | the request has a range condition iff both bounds are given, lies in the type's partition, and carries the caller's limit |
| EventsService.LastContinuation | src/main/java/com/dobrev/auditservice/products/services/ProductEventsService.java:31-36 | no continuation iff no page has a last evaluated key; otherwise the continuation is the sort key of the last page that has one |
| EventsService.SelectQueryChoice | src/main/java/com/dobrev/auditservice/products/services/ProductEventsService.java:27-29 | the range query is chosen iff both bounds are given, otherwise the type query |
| EventsService.GetAll | src/main/java/com/dobrev/auditservice/products/services/ProductEventsService.java:23-40 | the items are the mapped records of the response's first page (none if it has none), the continuation is that page's last key's sort key if any, and the count is the number of items |
| EventsService.CursorContinuation | src/main/java/com/dobrev/auditservice/products/services/ProductEventsService.java:34-36 | resuming with the returned continuation yields only keys after it, repeats no record of the first page, and skips no matching stored record |
| EventsService.WrittenRecordsAscend | src/main/java/com/dobrev/auditservice/products/repositories/ProductEventsRepository.java:47-48 | within a page of records whose sort keys render creation times of one width, creation times strictly ascend |
| EventsService.WrittenRecordsNotMappable | src/main/java/com/dobrev/auditservice/products/repositories/ProductEventRepository.java:36-53 | no record either write path builds can be mapped to an API record |
| EventsService.UnmappableRecordsReachFirstPage | src/main/java/com/dobrev/auditservice/products/services/ProductEventsService.java:32-33 | over a table of records none of which can be mapped, a query matching any stored key returns a non-empty first page that cannot be mapped |

## Left out

- Sending and receiving over the network: the queue client, the table client and their futures. They become the `Aws` classes, and what each request returns is an input.
- A failing receive: in the code, a receive request whose future fails throws out of the receive loop and ends the pass. The model's queue always answers a receive with a batch, so a failing receive is not modelled.
- Concurrency: a batch is handled in parallel in the code, and the order of the parallel handling is not fixed. The model handles the messages one after another in the batch's order, and the batch order is an input. That does not make it a model of every parallel run: no sequential order reproduces a run in which several messages of a batch fail.
- Failures in flight: in the code, a failing message aborts the batch, but its siblings keep running. They may still issue their puts and deletes during or after the failure, so in the code two routed messages of one batch whose puts are refused both issue a put and a delete. The model ends the pass at the first failing message, so its logs leave out the puts and deletes the code's siblings still issue.
- Pipeline.RunBatchEffects: "exactly the requests of the routed messages processed" holds for the sequential model only; the code's logs may also hold requests of siblings of the failing message.
- Pipeline.DrainEffects: "exactly those of the routed messages processed" holds for the sequential model only, for the same reason; with it, "the table ends as the successful puts upsert it" covers only the processed messages' puts, while "a message that is not routed is never put, stored or deleted" still holds, since a sibling's requests are issued only after it is routed.
- Unending passes: the queue oracle is a finite sequence of batches, so only passes that end are modelled. In the code the receive loop never ends while producers keep the queue non-empty; `Pipeline.Drain` terminates, and the receive count of `Pipeline.DrainReceives` is finite, only because the oracle is finite.
- Scheduling: the fixed-delay timers that start each pass live outside the code. A pass models one invocation.
- Tracing segments, thread-context logging and log lines: they do not affect what is stored or deleted.
- JSON decoding: the decoder is three opaque partial functions, one per target type. A missing envelope attribute fails inside the envelope decoder. In the code the same case throws when the missing attribute is dereferenced.
- The clock: its readings are inputs carried by each message. Times are unbounded naturals, so negative timestamps and `long` overflow are not modelled.
- Prices: floats are carried as their 32-bit pattern and never computed with.
- The read side's error paths are not modelled: a query the store rejects, including a limit below 1, and the join on a publisher that fails.
- Reading a failure-shaped record through the product-event schema is outside `ApiDto.ToApiDto`'s precondition. In the code that read would unbox a missing price.
- The HTTP controller, the application bootstrap and configuration.
- Record expiry by the store after `ttl`.
- The store's own paging: whether a page's size below `limit` is caused by a byte cap is a property of the store.
