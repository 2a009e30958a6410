/**
 * `fetch_balance` without its I/O: the call it makes for a network, and the
 * decision it takes on what comes back (transport failure, HTTP status, the
 * decoded body) down to the wei amount. The reply is an input of the model.
 */
module Balance {
  import opened Wrappers
  import opened Numeric
  import opened JsonRpc
  import opened Networks

  /** An HTTP status code as `reqwest` represents it. */
  type StatusCode = s: int | 100 <= s <= 999 witness 200

  /** What the endpoint's answer amounts to for the program. */
  datatype HttpReply =
      /** `send()` or reading the body failed. */
    | TransportFailed(reason: string)
      /** A response with its status, its body text, and `serde_json`'s reading
          of that text as a JSON-RPC response (`None` when it does not deserialise). */
    | Received(status: StatusCode, text: string, body: Option<JsonRpcResponse>)

  datatype FetchError =
    | Transport(reason: string)
      /** "HTTP error {status}: {text}" */
    | HttpStatus(status: StatusCode, text: string)
    | MalformedBody
      /** "Failed to parse balance for network {name}" */
    | UnparsableBalance(network: string)

  /** A successful fetch: chain id, balance in wei, network name. */
  datatype NetworkBalance = NetworkBalance(chainId: U64, wei: U128, name: string)

  /** The POST the program makes: to the network's endpoint, with the balance request. */
  datatype RpcCall = RpcCall(url: string, request: JsonRpcRequest)

  /** `StatusCode::is_success`: the 2xx range. */
  predicate IsSuccess(status: StatusCode) {
    200 <= status <= 299
  }

  /** `str::strip_prefix`: case-sensitive, at most one occurrence removed. */
  function StripPrefix(s: string, prefix: string): (rest: Option<string>)
    ensures rest.Some? <==> |prefix| <= |s| && s[..|prefix|] == prefix
    ensures rest.Some? ==> prefix + rest.value == s
  {
    if |prefix| <= |s| && s[..|prefix|] == prefix then Some(s[|prefix|..]) else None
  }

  predicate HasHexPrefix(s: string) {
    |s| >= 2 && s[..2] == "0x"
  }

  /**
   * The wei amount of a JSON-RPC `result`: `strip_prefix("0x")` followed by
   * `u128::from_str_radix(_, 16)`. This is the Ethereum "QUANTITY" hex
   * encoding, read leniently: upper-case digits, leading zeros and a `+`
   * after the prefix are accepted as `from_str_radix` accepts them.
   */
  function DecodeQuantity(result: string): (wei: Option<U128>)
    ensures wei.Some? <==>
      HasHexPrefix(result) && WellFormed(result[2..], 16) && DigitsValue(Unsigned(result[2..]), 16) < U128_LIMIT
    ensures wei.Some? ==> wei.value == DigitsValue(Unsigned(result[2..]), 16)
  {
    match StripPrefix(result, "0x")
    case None => None
    case Some(digits) => ParseHexU128(digits)
  }

  /** `0x` followed by the lower-case hex digits of `wei`, without leading zeros:
      how an Ethereum node writes a QUANTITY. */
  function FormatQuantity(wei: nat): (s: string)
    ensures HasHexPrefix(s)
  {
    "0x" + Format(wei, 16)
  }

  /** The call `fetch_balance` makes for `network`. */
  function BalanceCall(address: string, network: Network): (call: RpcCall)
    ensures call.url == network.rpcUrl
    ensures IsRequestObject(call.request) && BalanceQueryAddress(call.request) == Some(address)
  {
    BalanceRequestShape(address);
    RpcCall(network.rpcUrl, BalanceRequest(address))
  }

  /**
   * `fetch_balance` once the reply is in: a transport failure or a non-2xx
   * status is an error before the body is looked at; a body that does not
   * deserialise is an error; a `result` that does not decode is the
   * "Failed to parse balance" error naming the network; otherwise the network's
   * own chain id and name come back with the decoded wei amount.
   */
  function FetchBalance(network: Network, reply: HttpReply): (r: Result<NetworkBalance, FetchError>)
    ensures reply.TransportFailed? ==> r == Err(Transport(reply.reason))
    ensures reply.Received? && !IsSuccess(reply.status) ==> r == Err(HttpStatus(reply.status, reply.text))
    ensures reply.Received? && IsSuccess(reply.status) && reply.body.None? ==> r == Err(MalformedBody)
    ensures r.Ok? <==>
      reply.Received? && IsSuccess(reply.status) && reply.body.Some? && DecodeQuantity(reply.body.value.result).Some?
    ensures r.Ok? ==>
      r.value == NetworkBalance(network.chainId, DecodeQuantity(reply.body.value.result).value, network.name)
    ensures reply.Received? && IsSuccess(reply.status) && reply.body.Some? && r.Err? ==>
      r.error == UnparsableBalance(network.name)
  {
    match reply
    case TransportFailed(reason) => Err(Transport(reason))
    case Received(status, text, body) =>
      if !IsSuccess(status) then Err(HttpStatus(status, text))
      else
        match body
        case None => Err(MalformedBody)
        case Some(response) =>
          match DecodeQuantity(response.result)
          case Some(wei) => Ok(NetworkBalance(network.chainId, wei, network.name))
          case None => Err(UnparsableBalance(network.name))
  }

  // ---------------------------------------------------------------------------
  // Lemmas

  /** Every balance below 2^128 written as a QUANTITY decodes to itself. */
  lemma QuantityRoundTrip(wei: U128)
    ensures DecodeQuantity(FormatQuantity(wei)) == Some(wei)
  {
    var s := FormatQuantity(wei);
    assert s[2..] == Format(wei, 16);
    FormatRoundTrip(wei, 16, U128_LIMIT);
    FromStrRadixMeaning(Format(wei, 16), 16, U128_LIMIT);
  }

  /** A QUANTITY of 2^128 or more does not fit a `u128` and is rejected. */
  lemma QuantityOverflow(n: nat)
    requires n >= U128_LIMIT
    ensures DecodeQuantity(FormatQuantity(n)) == None
  {
    var s := FormatQuantity(n);
    assert s[2..] == Format(n, 16);
    assert DigitValue(Format(n, 16)[0], 16).Some?;
    assert Unsigned(s[2..]) == Format(n, 16);
    FormatValue(n, 16);
  }

  /** Results without the exact `0x` prefix, with nothing after it, or with a
      character that is not a hex digit are rejected. */
  lemma DecodeQuantityRejects()
    ensures DecodeQuantity("") == None
    ensures DecodeQuantity("ff") == None
    ensures DecodeQuantity("0Xff") == None
    ensures DecodeQuantity("0x") == None
    ensures DecodeQuantity("0xfg") == None
    ensures DecodeQuantity("0x-1") == None
  {
    assert "0Xff"[..2] != "0x" by { assert "0Xff"[1] == 'X'; }
    assert "0xfg"[2..][1] == 'g';
    assert "0x-1"[2..] == "-1";
    assert Unsigned("-1")[0] == '-';
  }

  /** The lenient forms `from_str_radix` admits are read: upper-case digits,
      leading zeros and a `+` sign. */
  lemma DecodeQuantityLenient()
    ensures DecodeQuantity("0x0") == Some(0)
    ensures DecodeQuantity("0xFF") == Some(255)
    ensures DecodeQuantity("0x00ff") == Some(255)
    ensures DecodeQuantity("0x+ff") == Some(255)
  {
  }

  /** A non-2xx reply is an error whatever its body holds: the `result` is
      never looked at. */
  lemma NonSuccessIgnoresBody(network: Network, status: StatusCode, text: string,
                              body1: Option<JsonRpcResponse>, body2: Option<JsonRpcResponse>)
    requires !IsSuccess(status)
    ensures FetchBalance(network, Received(status, text, body1)) == FetchBalance(network, Received(status, text, body2))
    ensures FetchBalance(network, Received(status, text, body1)).Err?
  {
  }

  /** A 2xx reply carrying a well-formed QUANTITY yields exactly that balance,
      tagged with the network's own chain id and name. */
  lemma FetchBalanceOfQuantity(network: Network, status: StatusCode, text: string, wei: U128)
    requires IsSuccess(status)
    ensures FetchBalance(network, Received(status, text, Some(JsonRpcResponse(FormatQuantity(wei)))))
         == Ok(NetworkBalance(network.chainId, wei, network.name))
  {
    QuantityRoundTrip(wei);
  }
}
