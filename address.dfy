/**
 * The choice of the wallet address in `main`: the command-line argument if it
 * is given and not empty, else the configuration's `address` if it is given and
 * not empty, else the run fails with "No address provided".
 */
module Address {
  import opened Wrappers

  const NO_ADDRESS: string := "No address provided"

  /** A value that is given and not the empty string. */
  predicate Usable(value: Option<string>) {
    value.Some? && value.value != ""
  }

  function SelectAddress(cliArgument: Option<string>, configAddress: Option<string>): (r: Result<string, string>)
    ensures r.Ok? <==> Usable(cliArgument) || Usable(configAddress)
    ensures r.Ok? ==> r.value != ""
    ensures Usable(cliArgument) ==> r == Ok(cliArgument.value)
    ensures !Usable(cliArgument) && Usable(configAddress) ==> r == Ok(configAddress.value)
    ensures r.Err? ==> r.error == NO_ADDRESS
  {
    if Usable(cliArgument) then Ok(cliArgument.value)
    else if Usable(configAddress) then Ok(configAddress.value)
    else Err(NO_ADDRESS)
  }

  /** The chosen address is always one of the two candidates, and the
      configuration's only when the argument is unusable. */
  lemma SelectedFromCandidates(cliArgument: Option<string>, configAddress: Option<string>)
    ensures SelectAddress(cliArgument, configAddress).Ok? ==>
      var address := SelectAddress(cliArgument, configAddress).value;
      Some(address) == cliArgument || (Some(address) == configAddress && !Usable(cliArgument))
  {
  }
}
