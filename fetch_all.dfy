/**
 * `fetch_all_balances`: one task per network runs `fetch_balance`, `join_all`
 * waits for all of them, and a final loop keeps the successes in task order,
 * reports every failure and never fails as a whole.
 */
module FetchAll {
  import opened Wrappers
  import opened Numeric
  import opened Networks
  import opened JsonRpc
  import opened Balance

  /** How a spawned task ended, as `join_all` hands it back. */
  datatype TaskRun =
      /** The task panicked or was cancelled (a `JoinError`). */
    | Aborted(reason: string)
      /** The task ran `fetch_balance` to the end and got this reply. */
    | Finished(reply: HttpReply)

  /** One element of the joined results: `Result<Result<…, FetchError>, JoinError>`. */
  datatype TaskOutcome =
    | JoinFailed(reason: string)
    | Completed(fetch: Result<NetworkBalance, FetchError>)

  /** A line written to standard error for a failed task. */
  datatype Report =
      /** "Error fetching balance: {e}" */
    | FetchFailure(error: FetchError)
      /** "Task error: {e}" */
    | TaskFailure(reason: string)

  predicate Succeeded(outcome: TaskOutcome) {
    outcome.Completed? && outcome.fetch.Ok?
  }

  /** The balances kept from `outcomes`, in their order. */
  function Successes(outcomes: seq<TaskOutcome>): seq<NetworkBalance>
    decreases |outcomes|
  {
    if outcomes == [] then []
    else
      var last := outcomes[|outcomes| - 1];
      Successes(outcomes[..|outcomes| - 1]) + (if Succeeded(last) then [last.fetch.value] else [])
  }

  /** The failure reports for `outcomes`, in their order. */
  function Failures(outcomes: seq<TaskOutcome>): seq<Report>
    decreases |outcomes|
  {
    if outcomes == [] then []
    else
      var last := outcomes[|outcomes| - 1];
      Failures(outcomes[..|outcomes| - 1]) +
        match last
        case JoinFailed(reason) => [TaskFailure(reason)]
        case Completed(Err(e)) => [FetchFailure(e)]
        case Completed(Ok(_)) => []
  }

  /**
   * The loop at the end of `fetch_all_balances`: push every success, report
   * every failure (the `eprintln!` lines, returned here as `reports`), and
   * return `Ok` whatever happened.
   */
  method CollectBalances(results: seq<TaskOutcome>) returns (r: Result<seq<NetworkBalance>, string>, reports: seq<Report>)
    ensures r == Ok(Successes(results))
    ensures reports == Failures(results)
  {
    var balances := [];
    reports := [];
    for i := 0 to |results|
      invariant balances == Successes(results[..i])
      invariant reports == Failures(results[..i])
    {
      assert results[..i + 1][..i] == results[..i];
      match results[i] {
        case Completed(Ok(balance)) =>
          balances := balances + [balance];
        case Completed(Err(e)) =>
          reports := reports + [FetchFailure(e)];
        case JoinFailed(reason) =>
          reports := reports + [TaskFailure(reason)];
      }
    }
    assert results[..|results|] == results;
    r := Ok(balances);
  }

  /** The joined results for tasks spawned over `order`, each ending as `runs` says. */
  function TaskOutcomes(order: seq<Network>, runs: seq<TaskRun>): (outcomes: seq<TaskOutcome>)
    requires |order| == |runs|
    ensures |outcomes| == |order|
    ensures forall i | 0 <= i < |runs| :: runs[i].Aborted? ==> outcomes[i] == JoinFailed(runs[i].reason)
    ensures forall i | 0 <= i < |runs| :: runs[i].Finished? ==> outcomes[i] == Completed(FetchBalance(order[i], runs[i].reply))
  {
    seq(|runs|, i requires 0 <= i < |runs| =>
      match runs[i]
      case Aborted(reason) => JoinFailed(reason)
      case Finished(reply) => Completed(FetchBalance(order[i], reply)))
  }

  /** The calls the tasks make, one per network, in spawn order: every task
      posts to its own network's endpoint, asking for the same address. */
  function Calls(address: string, order: seq<Network>): (calls: seq<RpcCall>)
    ensures |calls| == |order|
    ensures forall i | 0 <= i < |order| ::
      && calls[i].url == order[i].rpcUrl
      && IsRequestObject(calls[i].request)
      && BalanceQueryAddress(calls[i].request) == Some(address)
  {
    seq(|order|, i requires 0 <= i < |order| => BalanceCall(address, order[i]))
  }

  /** `order` is an iteration order of the network table: every network once. */
  ghost predicate IterationOrder(networks: map<U64, Network>, order: seq<Network>) {
    && |order| == |networks|
    && (forall i | 0 <= i < |order| :: order[i].chainId in networks && networks[order[i].chainId] == order[i])
    && (forall i, j | 0 <= i < j < |order| :: order[i].chainId != order[j].chainId)
  }

  // ---------------------------------------------------------------------------
  // Lemmas

  lemma {:induction false} SuccessesAppend(a: seq<TaskOutcome>, b: seq<TaskOutcome>)
    ensures Successes(a + b) == Successes(a) + Successes(b)
    ensures Failures(a + b) == Failures(a) + Failures(b)
    decreases |b|
  {
    if b == [] {
      assert a + b == a;
    } else {
      var init := b[..|b| - 1];
      assert (a + b)[..|a + b| - 1] == a + init;
      SuccessesAppend(a, init);
    }
  }

  /** The kept balances and the failure reports together number exactly the outcomes. */
  lemma {:induction false} SuccessesPartition(outcomes: seq<TaskOutcome>)
    ensures |Successes(outcomes)| + |Failures(outcomes)| == |outcomes|
    ensures |Successes(outcomes)| <= |outcomes|
    decreases |outcomes|
  {
    if outcomes != [] {
      SuccessesPartition(outcomes[..|outcomes| - 1]);
    }
  }

  /** A balance is kept exactly when some task completed successfully with it. */
  lemma {:induction false} SuccessesMembers(outcomes: seq<TaskOutcome>, balance: NetworkBalance)
    ensures balance in Successes(outcomes) <==>
      exists i | 0 <= i < |outcomes| :: outcomes[i] == Completed(Ok(balance))
    decreases |outcomes|
  {
    if outcomes != [] {
      var init := outcomes[..|outcomes| - 1];
      SuccessesMembers(init, balance);
      if exists i | 0 <= i < |init| :: init[i] == Completed(Ok(balance)) {
        var i :| 0 <= i < |init| && init[i] == Completed(Ok(balance));
        assert outcomes[i] == init[i];
      }
      if exists i | 0 <= i < |outcomes| :: outcomes[i] == Completed(Ok(balance)) {
        var i :| 0 <= i < |outcomes| && outcomes[i] == Completed(Ok(balance));
        if i < |init| { assert init[i] == outcomes[i]; }
      }
    }
  }

  /** When every task succeeds, every balance is kept, in task order. */
  lemma {:induction false} AllSucceeded(outcomes: seq<TaskOutcome>)
    requires forall i | 0 <= i < |outcomes| :: Succeeded(outcomes[i])
    ensures |Successes(outcomes)| == |outcomes|
    ensures forall i | 0 <= i < |outcomes| :: outcomes[i] == Completed(Ok(Successes(outcomes)[i]))
    decreases |outcomes|
  {
    if outcomes != [] {
      AllSucceeded(outcomes[..|outcomes| - 1]);
    }
  }

  /**
   * Over the whole fan-out: every kept balance belongs to a configured network
   * and carries that network's name, there are no more balances than networks,
   * and no networks give no balances.
   */
  lemma FetchAllSound(networks: map<U64, Network>, order: seq<Network>, runs: seq<TaskRun>)
    requires IterationOrder(networks, order) && |runs| == |order|
    ensures forall b | b in Successes(TaskOutcomes(order, runs)) ::
      b.chainId in networks && b.name == networks[b.chainId].name
    ensures |Successes(TaskOutcomes(order, runs))| <= |networks|
    ensures networks == map[] ==> Successes(TaskOutcomes(order, runs)) == []
  {
    var outcomes := TaskOutcomes(order, runs);
    forall b | b in Successes(outcomes)
      ensures b.chainId in networks && b.name == networks[b.chainId].name
    {
      SuccessesMembers(outcomes, b);
      var i :| 0 <= i < |outcomes| && outcomes[i] == Completed(Ok(b));
      assert runs[i].Finished?;
    }
    SuccessesPartition(outcomes);
  }

  /** Three networks of which the second answers HTTP 500: the other two
      balances come back, in order, and the failure is reported, not raised. */
  lemma PartialFailureExample(n1: Network, n2: Network, n3: Network, w1: U128, w3: U128, text: string)
    ensures
      var ok := Some(JsonRpcResponse(FormatQuantity(w1)));
      var ok3 := Some(JsonRpcResponse(FormatQuantity(w3)));
      var outcomes := TaskOutcomes([n1, n2, n3],
        [Finished(Received(200, "", ok)), Finished(Received(500, text, None)), Finished(Received(200, "", ok3))]);
      && Successes(outcomes) == [NetworkBalance(n1.chainId, w1, n1.name), NetworkBalance(n3.chainId, w3, n3.name)]
      && Failures(outcomes) == [FetchFailure(HttpStatus(500, text))]
  {
    var ok := Some(JsonRpcResponse(FormatQuantity(w1)));
    var ok3 := Some(JsonRpcResponse(FormatQuantity(w3)));
    FetchBalanceOfQuantity(n1, 200, "", w1);
    FetchBalanceOfQuantity(n3, 200, "", w3);
    var outcomes := TaskOutcomes([n1, n2, n3],
      [Finished(Received(200, "", ok)), Finished(Received(500, text, None)), Finished(Received(200, "", ok3))]);
    assert outcomes[0] == Completed(Ok(NetworkBalance(n1.chainId, w1, n1.name)));
    assert outcomes[1] == Completed(Err(HttpStatus(500, text)));
    assert outcomes[2] == Completed(Ok(NetworkBalance(n3.chainId, w3, n3.name)));
    assert outcomes[..2][..1] == [outcomes[0]] && [outcomes[0]][..0] == [];
    assert outcomes[..3] == outcomes;
    assert Successes(outcomes[..1]) == [NetworkBalance(n1.chainId, w1, n1.name)];
    assert Failures(outcomes[..1]) == [];
    assert outcomes[..2][..1] == outcomes[..1];
    assert Successes(outcomes[..2]) == [NetworkBalance(n1.chainId, w1, n1.name)];
    assert outcomes[..2] == outcomes[..|outcomes| - 1];
  }
}
