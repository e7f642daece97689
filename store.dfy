/**
 * The DynamoDB table both handlers share, as an in-memory map from `id` to
 * item. Only the behaviour the handlers rely on is modelled: a get by key
 * and an unconditional put that replaces any item already stored under the
 * same key. What the store does with a put is a parameter.
 */
module Store {

  /** One item of the table, as the shorten handler writes it. */
  datatype Item = Item(id: string, longUrl: string, shortUrl: string)

  /**
   * How a put ends. `docClient.send` can reject (DynamoDB applied nothing),
   * or it can throw after DynamoDB applied the write (a lost reply or a
   * timeout). The caller sees an error in both failing cases.
   */
  datatype PutResult = Succeeded | Rejected | FailedAfterWrite

  class Table {
    var items: map<string, Item>

    constructor ()
      ensures items == map[]
    {
      items := map[];
    }

    /**
     * `docClient.send(new PutCommand({Item: item}))`: keyed by `item.id`,
     * with no condition expression, so an existing item is overwritten.
     * `ok` is false when the call throws.
     */
    method Put(item: Item, result: PutResult) returns (ok: bool)
      modifies this
      ensures ok <==> result == Succeeded
      ensures result != Rejected ==> items == old(items)[item.id := item]
      ensures result == Rejected ==> items == old(items)
    {
      ok := result == Succeeded;
      if result != Rejected {
        items := items[item.id := item];
      }
    }
  }
}
