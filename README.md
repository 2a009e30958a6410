# walletfetch, modelled in Dafny

walletfetch is a command-line tool that prints the native-currency balance of
one wallet address on every EVM network listed in its configuration file. Under
its I/O (TOML file, HTTP, tokio tasks, console output) sit five pieces of
deterministic logic, all in `src/main.rs`, and this project models and proves
them:

- **Network table** (`networks.dfy`, module `Networks`): `collect_rpc_urls`
  turns the configuration's string-keyed `networks` table into a map keyed by
  `u64` chain id. A key that does not parse as a decimal `u64` is dropped.
  Distinct keys can parse to one id (`"1"`, `"01"`, `"+1"`). The model visits the
  table in an unspecified order, as a `HashMap` does. So it proves only that each
  entry comes from SOME key with that id. When a key is the only one for its id,
  its entry is the one kept.
- **Integer parsing** (`numeric.dfy`, module `Numeric`): Rust's
  `from_str_radix`, which backs both `str::parse::<u64>` and
  `u128::from_str_radix(_, 16)`. It accepts one optional `+`, then digits of
  either case, and rejects any value that overflows. The digit loop is modelled
  as Rust runs it, a Horner accumulation with checked arithmetic. It is proved
  equal to the positional reading of the digits. It is also proved to invert
  lower-case formatting for every value that fits.
- **Balance decoding** (`balance.dfy`, module `Balance`): the decision
  `fetch_balance` takes on the reply. The steps are: transport failure, then
  non-2xx status, then a body that does not deserialise, then a `result` without
  `0x` or not a `u128` in hex, then success. The reply is an input. The amount is
  kept in wei, as an integer below 2^128.
- **Request construction** (`json_rpc.dfy`, module `JsonRpc`): the JSON-RPC 2.0
  `eth_getBalance` request, `params = [address, "latest"]`, `id = 1`. It is
  checked against the request-object rules of section 4 of the JSON-RPC 2.0
  Specification.
- **Result collection** (`fetch_all.dfy`, module `FetchAll`): the loop after
  `join_all`. It keeps the successful fetches in task order, reports every
  failure and always returns `Ok`. The joined outcomes are described for any
  iteration order of the network table.
- **Address selection** (`address.dfy`, module `Address`): the command-line
  argument if given and non-empty, else the configured address if given and
  non-empty, else the "No address provided" error.

`wrappers.dfy` holds the `Option` and `Result` datatypes.

The decoding accepts more than the Ethereum QUANTITY encoding allows. That
encoding asks for lower-case digits without leading zeros. The code also reads
`0xFF`, `0x00ff` and `0x+ff` as 255, because `from_str_radix` does
(`Balance.DecodeQuantityLenient`). Every canonical QUANTITY still decodes to its
value (`Balance.QuantityRoundTrip`).

A JSON-RPC `error` reply has no `result` member, so it fails to
deserialise (`MalformedBody` here). It is not decoded as a structured error.

## Model

| member | source | states |
|---|---|---|
| `Numeric.CheckedHorner` | src/main.rs:106 | The checked digit loop of `from_str_radix` only ever returns a value below the type's limit and no smaller than the value accumulated so far. |
| `Numeric.CheckedHornerMeaning` | src/main.rs:106 | The checked loop succeeds exactly when every character is a digit and the unbounded value stays below the limit, and then returns that value. Overflow can never be hidden by a later digit. |
| `Numeric.FromStrRadixMeaning` | src/main.rs:65 | `from_str_radix` returns a value exactly for an optional `+` followed by at least one digit of the radix whose positional value fits. That value is the base-radix reading of the digits. Empty text, a lone sign, a `-` and overflow give an error. |
| `Numeric.ParseU64` | src/main.rs:65 | `parse::<u64>` succeeds iff the key is well-formed decimal below 2^64, and then yields the decimal reading of its digits. |
| `Numeric.ParseHexU128` | src/main.rs:106 | `u128::from_str_radix(_, 16)` succeeds iff the text is well-formed hex below 2^128, and then yields the base-16 reading of its digits. |
| `Numeric.FormatRoundTrip` | src/main.rs:105-106 | Any value below the limit, written in lower-case digits of the radix and parsed back, gives that value. |
| `Numeric.ParseU64Examples` | src/main.rs:65 | `"1"`, `"01"` and `"+1"` all parse to chain id 1. `""`, `"+"`, `"-1"` and `"1_0"` do not parse. |
| `Networks.CollectRpcUrls` | src/main.rs:60-76 | No `networks` table gives an empty map. Otherwise the key set is exactly the set of ids the config keys parse to. Every entry's key equals its `chain_id`. Its name and URL are copied from some config key parsing to that id, and from the only such key when it is unique. |
| `Networks.ParsedIdsExample` | src/main.rs:63-71 | Keys that are not decimal `u64`s (`"mainnet"`, `"-5"`) contribute no id, and an empty table none at all. |
| `JsonRpc.BalanceRequest` | src/main.rs:83-88 | The request is a JSON-RPC 2.0 request object: `jsonrpc` is "2.0" and the method is not a reserved `rpc.` name. |
| `JsonRpc.BalanceRequestShape` | src/main.rs:83-88 | The request has `jsonrpc = "2.0"`, `method = "eth_getBalance"`, `params = [address, "latest"]` and `id = 1`. An endpoint reading it gets back exactly the address. |
| `JsonRpc.BalanceRequestInjective` | src/main.rs:86 | Two balance requests are equal iff they are for the same address. |
| `Balance.StripPrefix` | src/main.rs:105 | `strip_prefix` succeeds exactly when the text starts with the prefix, and the prefix followed by the rest is the text. |
| `Balance.DecodeQuantity` | src/main.rs:105-106 | A `result` decodes iff it starts with exactly `0x` and the rest is well-formed hex below 2^128. The wei value is the base-16 reading of the digits after `0x`. |
| `Balance.QuantityRoundTrip` | src/main.rs:105-106 | Every value below 2^128 written as `0x` plus lower-case hex decodes to itself. |
| `Balance.QuantityOverflow` | src/main.rs:106 | A QUANTITY of 2^128 or more is rejected. |
| `Balance.DecodeQuantityRejects` | src/main.rs:105-111 | `""`, `"ff"`, `"0Xff"`, `"0x"`, `"0xfg"` and `"0x-1"` are not decoded. |
| `Balance.DecodeQuantityLenient` | src/main.rs:105-106 | `"0x0"` decodes to 0. `"0xFF"`, `"0x00ff"` and `"0x+ff"` all decode to 255. |
| `Balance.BalanceCall` | src/main.rs:90-91 | The POST goes to the network's own RPC URL and carries a valid request whose address is the queried one. |
| `Balance.FetchBalance` | src/main.rs:95-111 | A transport failure or a non-2xx status is an error. The HTTP error carries the status and body text. A 2xx body that does not deserialise is the malformed-body error. The result is `Ok` iff the status is 2xx, the body deserialises and its `result` decodes. `Ok` carries the network's own chain id and name with the decoded wei. A 2xx reply whose `result` does not decode is the "Failed to parse balance" error naming the network. |
| `Balance.NonSuccessIgnoresBody` | src/main.rs:97-100 | For a non-2xx status the outcome is an error and does not depend on the body at all: no parsing is attempted. |
| `Balance.FetchBalanceOfQuantity` | src/main.rs:105-108 | A 2xx reply carrying a QUANTITY for any `u128` yields exactly that wei amount, tagged with the network's chain id and name. |
| `FetchAll.CollectBalances` | src/main.rs:136-150 | The loop always returns `Ok`. It holds exactly the successful fetches, in joined order, and reports exactly the failures, in order. |
| `FetchAll.TaskOutcomes` | src/main.rs:122-134 | There is one joined outcome per spawned network, in spawn order. A failed join is a join error. Otherwise it is the outcome of `fetch_balance` for that task's network. |
| `FetchAll.Calls` | src/main.rs:122-132 | There is one call per network in spawn order. Each task posts to its own network's RPC URL a valid JSON-RPC request that asks for the same address. |
| `FetchAll.SuccessesAppend` | src/main.rs:137-141 | Collection distributes over concatenation of the joined list, for both kept balances and reports, so order is preserved. |
| `FetchAll.SuccessesPartition` | src/main.rs:137-149 | The number of kept balances plus the number of failure reports equals the number of outcomes. The number kept is at most the number of tasks. |
| `FetchAll.SuccessesMembers` | src/main.rs:139-140 | A balance is kept iff some task completed successfully with it. |
| `FetchAll.AllSucceeded` | src/main.rs:137-141 | When every task succeeds, the i-th kept balance is the i-th task's. |
| `FetchAll.FetchAllSound` | src/main.rs:114-150 | For any iteration order of the network table, every kept balance belongs to a configured network and carries its name. There are no more balances than networks, and zero networks give an empty list. |
| `FetchAll.PartialFailureExample` | src/main.rs:137-150 | With three networks of which the middle one answers HTTP 500, the other two balances come back in order. The 500 is reported and not raised. |
| `Address.SelectAddress` | src/main.rs:169-178 | An address is chosen iff the argument or the configured address is present and non-empty. A non-empty argument wins. The configured address is used only when the argument is unusable. The chosen address is never empty. Otherwise the error is "No address provided". |
| `Address.SelectedFromCandidates` | src/main.rs:169-178 | The chosen address is one of the two candidates. It is the configured one only when the argument is absent or empty. |

## Left out

- `read_config` (src/main.rs:45-58): home-directory lookup, file access and TOML deserialisation are I/O and a foreign library. The model starts from a `Config` value.
- The HTTP POST, reading the body, and `serde_json`'s (de)serialisation (src/main.rs:90-103): the reply, including whether the body deserialises, is an input (`HttpReply`). The JSON text of the request is not produced.
- `tokio::spawn` and `join_all` (src/main.rs:118-134): scheduling and concurrency are not modelled. How each task ended is an input (`TaskRun`), and the joined list is taken in spawn order.
- The `f64` conversion `balance as f64 / 1e18` (src/main.rs:107): floating point. Balances stay exact wei integers below 2^128.
- The `clap` command definition (src/main.rs:155-165), all `println!`/`eprintln!` output and the `{:.4}` formatting (src/main.rs:188-196): presentation only. The failures that `fetch_all_balances` prints appear as `Report` values, without their text.
- The "RPC URLs are not defined" notice for an empty network table (src/main.rs:182-184): it only prints and the run continues.
- `FetchAll.CollectBalances`: reports carry the error values, not the `Display` text of `reqwest` status codes or errors.
