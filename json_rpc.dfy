/**
 * The JSON-RPC 2.0 envelope the program sends and the part of the reply it reads.
 * Field order and names are those of the serialised object:
 * `{"jsonrpc": …, "method": …, "params": […], "id": …}`.
 */
module JsonRpc {
  import opened Wrappers
  import opened Numeric

  datatype JsonRpcRequest = JsonRpcRequest(jsonrpc: string, methodName: string, params: seq<string>, id: U32)

  /** The reply body; only its `result` member is read. */
  datatype JsonRpcResponse = JsonRpcResponse(result: string)

  const BALANCE_METHOD: string := "eth_getBalance"
  /** The block parameter asking for the most recent block. */
  const LATEST_BLOCK: string := "latest"

  /**
   * A request object as section 4 of the JSON-RPC 2.0 Specification defines it:
   * the member `jsonrpc` is exactly "2.0" and method names starting with `rpc.`
   * are reserved for the protocol. The `id` member is always present here, so
   * every request is a call that expects a response, never a notification.
   */
  predicate IsRequestObject(request: JsonRpcRequest) {
    && request.jsonrpc == "2.0"
    && !(|request.methodName| >= 4 && request.methodName[..4] == "rpc.")
  }

  /** The request `fetch_balance` posts for `address`. */
  function BalanceRequest(address: string): (request: JsonRpcRequest)
    ensures IsRequestObject(request)
  {
    assert BALANCE_METHOD[..4][0] == 'e';
    JsonRpcRequest("2.0", BALANCE_METHOD, [address, LATEST_BLOCK], 1)
  }

  /** What an endpoint reads from a request: the address of an `eth_getBalance`
      call for the latest block, or nothing for any other request. */
  function BalanceQueryAddress(request: JsonRpcRequest): Option<string> {
    if IsRequestObject(request) && request.methodName == BALANCE_METHOD
       && |request.params| == 2 && request.params[1] == LATEST_BLOCK
    then Some(request.params[0])
    else None
  }

  /** The balance request is an `eth_getBalance` call with id 1 and positional
      parameters `[address, "latest"]`, and the endpoint reads back exactly the
      address it was built from. */
  lemma BalanceRequestShape(address: string)
    ensures BalanceRequest(address).jsonrpc == "2.0"
    ensures BalanceRequest(address).methodName == "eth_getBalance"
    ensures BalanceRequest(address).params == [address, "latest"]
    ensures BalanceRequest(address).id == 1
    ensures BalanceQueryAddress(BalanceRequest(address)) == Some(address)
  {
  }

  /** Two balance requests are equal exactly when their addresses are. */
  lemma BalanceRequestInjective(a: string, b: string)
    ensures BalanceRequest(a) == BalanceRequest(b) <==> a == b
  {
  }
}
