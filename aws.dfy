/**
 * The external collaborators, abstracted: the message queue (whose answers to successive
 * receive requests are given in advance, as an oracle) and the events table (a map keyed
 * by partition and sort key), together with the shape of a query and the contract a
 * page of query results satisfies.
 */
module Aws {
  import opened Common
  import opened SortKeys
  import opened Models

  // ---------------------------------------------------------------------------
  // Message queue
  // ---------------------------------------------------------------------------

  datatype Message = Message(body: string, receiptHandle: string)

  /** A received message together with what the environment does while it is processed:
      the clock readings its record builder makes, and whether the table accepts its put
      and the queue accepts its delete. */
  datatype Delivery = Delivery(message: Message, clock: Clock, putAccepted: bool, deleteAccepted: bool)

  type Batch = seq<Delivery>

  /** `pending` holds the batches successive receive requests will return; once it is
      exhausted the queue reports no visible messages. */
  class MessageQueue {
    var pending: seq<Batch>
    var receiveRequests: seq<nat>
    var deleteRequests: seq<string>

    constructor (batches: seq<Batch>)
      ensures pending == batches && receiveRequests == [] && deleteRequests == []
    {
      pending := batches;
      receiveRequests := [];
      deleteRequests := [];
    }

    /** A receive request for at most `maxNumberOfMessages` messages. */
    method ReceiveMessage(maxNumberOfMessages: nat) returns (messages: Batch)
      modifies this
      ensures messages == (if old(pending) == [] then [] else old(pending)[0])
      ensures pending == (if old(pending) == [] then [] else old(pending)[1..])
      ensures receiveRequests == old(receiveRequests) + [maxNumberOfMessages]
      ensures deleteRequests == old(deleteRequests)
    {
      if pending == [] {
        messages := [];
      } else {
        messages := pending[0];
        pending := pending[1..];
      }
      receiveRequests := receiveRequests + [maxNumberOfMessages];
    }

    /** Issues a delete; `accepted` is the queue's answer. */
    method DeleteMessage(receiptHandle: string, accepted: bool) returns (ok: bool)
      modifies this
      ensures ok == accepted
      ensures deleteRequests == old(deleteRequests) + [receiptHandle]
      ensures pending == old(pending) && receiveRequests == old(receiveRequests)
    {
      deleteRequests := deleteRequests + [receiptHandle];
      ok := accepted;
    }
  }

  // ---------------------------------------------------------------------------
  // Events table
  // ---------------------------------------------------------------------------

  /** Every item is stored under its own key. */
  ghost predicate WellKeyed(items: map<ItemKey, StoredItem>)
  {
    forall k :: k in items ==> items[k].Key() == k
  }

  class EventsTable {
    var items: map<ItemKey, StoredItem>
    var putRequests: seq<StoredItem>

    constructor ()
      ensures items == map[] && putRequests == []
    {
      items := map[];
      putRequests := [];
    }

    /** An unconditional upsert under the item's key; `accepted` is the table's answer,
        and a refused put leaves the items as they were. */
    method PutItem(item: StoredItem, accepted: bool) returns (ok: bool)
      modifies this
      ensures ok == accepted
      ensures putRequests == old(putRequests) + [item]
      ensures items == if accepted then old(items)[item.Key() := item] else old(items)
      ensures WellKeyed(old(items)) ==> WellKeyed(items)
    {
      putRequests := putRequests + [item];
      if accepted {
        items := items[item.Key() := item];
      }
      ok := accepted;
    }
  }

  // ---------------------------------------------------------------------------
  // Queries
  // ---------------------------------------------------------------------------

  /** A key condition: the whole partition, or the part whose sort keys lie in a closed range. */
  datatype KeyCondition =
    | KeyEqualTo(partitionValue: string)
    | SortBetween(partitionValue: string, from: string, to: string)

  datatype QueryRequest = QueryRequest(condition: KeyCondition, exclusiveStartKey: Option<ItemKey>, limit: int)

  /** One page of query results and the key of the last item it evaluated, if any. */
  datatype Page = Page(items: seq<StoredItem>, lastEvaluatedKey: Option<ItemKey>)

  /** Whether a key satisfies the request's key condition and lies after its start key. */
  predicate Matches(req: QueryRequest, k: ItemKey)
  {
    && k.pk == req.condition.partitionValue
    && (req.condition.SortBetween? ==> LexLe(req.condition.from, k.sk) && LexLe(k.sk, req.condition.to))
    && (req.exclusiveStartKey.Some? ==> LexLess(req.exclusiveStartKey.value.sk, k.sk))
  }

  /** The store's contract for the first page of a query: at most `limit` stored, matching
      items in ascending sort-key order, forming a prefix of all matching items (nothing
      up to the last evaluated key is skipped, and without a last evaluated key nothing at
      all is), with the last evaluated key being that of the page's last item. */
  ghost predicate ValidPage(items: map<ItemKey, StoredItem>, req: QueryRequest, page: Page)
  {
    && |page.items| <= req.limit
    && (forall i :: 0 <= i < |page.items| ==>
          page.items[i].Key() in items && items[page.items[i].Key()] == page.items[i]
          && Matches(req, page.items[i].Key()))
    && (forall i, j :: 0 <= i < j < |page.items| ==>
          LexLess(page.items[i].Key().sk, page.items[j].Key().sk))
    && (page.lastEvaluatedKey.Some? ==>
          page.items != [] && page.lastEvaluatedKey.value == page.items[|page.items| - 1].Key())
    && (forall k :: k in items && Matches(req, k)
          && (page.lastEvaluatedKey.Some? ==> LexLe(k.sk, page.lastEvaluatedKey.value.sk))
          ==> items[k] in page.items)
  }
}
