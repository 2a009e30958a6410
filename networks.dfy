/**
 * The configuration as deserialised from the TOML file, and the network table
 * `collect_rpc_urls` builds from it: one `Network` per chain id, for every
 * configuration key that reads as a decimal `u64`.
 */
module Networks {
  import opened Wrappers
  import opened Numeric

  /** One `[networks.<key>]` table of the configuration file. */
  datatype NetworkConfig = NetworkConfig(name: string, rpcUrl: string)

  /** The whole configuration file; both parts are optional. */
  datatype Config = Config(address: Option<string>, networks: Option<map<string, NetworkConfig>>)

  /** A network the balance is fetched from, identified by its chain id. */
  datatype Network = Network(chainId: U64, name: string, rpcUrl: string)

  /** The network entry built for chain id `chainId` from a configuration table. */
  function Entry(chainId: U64, config: NetworkConfig): Network {
    Network(chainId, config.name, config.rpcUrl)
  }

  /** The chain ids the given configuration keys parse to; keys that do not parse add none. */
  ghost function ParsedIds(keys: set<string>): set<U64> {
    set key | key in keys && ParseU64(key).Some? :: ParseU64(key).value
  }

  /** `network` is what the configuration entry under `key` produces. */
  ghost predicate FromEntry(entries: map<string, NetworkConfig>, key: string, network: Network) {
    key in entries && ParseU64(key) == Some(network.chainId) && network == Entry(network.chainId, entries[key])
  }

  /** No other key of `entries` parses to the same chain id as `key`. */
  ghost predicate OnlyKeyFor(entries: map<string, NetworkConfig>, key: string) {
    forall other | other in entries && ParseU64(other) == ParseU64(key) :: other == key
  }

  /**
   * `collect_rpc_urls`. The configuration map is visited in an order the model
   * leaves open (a `HashMap` gives none), and every key that parses is inserted
   * under its chain id, replacing what an earlier key with the same id put there.
   * So the result holds exactly the parsed ids, each entry copied from SOME key
   * that parses to its id; only when that key is the only one is it determined.
   */
  method CollectRpcUrls(config: Config) returns (networks: map<U64, Network>)
    ensures config.networks.None? ==> networks == map[]
    ensures config.networks.Some? ==> networks.Keys == ParsedIds(config.networks.value.Keys)
    ensures forall id | id in networks :: networks[id].chainId == id
    ensures forall id | id in networks ::
      config.networks.Some? && exists key :: FromEntry(config.networks.value, key, networks[id])
    ensures config.networks.Some? ==>
      forall key | key in config.networks.value && ParseU64(key).Some? && OnlyKeyFor(config.networks.value, key) ::
        networks[ParseU64(key).value] == Entry(ParseU64(key).value, config.networks.value[key])
  {
    networks := map[];
    if config.networks.Some? {
      var entries := config.networks.value;
      var remaining := entries.Keys;
      while remaining != {}
        invariant remaining <= entries.Keys
        invariant networks.Keys == ParsedIds(entries.Keys - remaining)
        invariant forall id | id in networks :: networks[id].chainId == id
        invariant forall id | id in networks :: exists key :: FromEntry(entries, key, networks[id])
        invariant forall key | key in entries.Keys - remaining && ParseU64(key).Some? && OnlyKeyFor(entries, key) ::
          networks[ParseU64(key).value] == Entry(ParseU64(key).value, entries[key])
        decreases remaining
      {
        var key :| key in remaining;
        ParsedIdsAdd(entries.Keys - remaining, key);
        assert entries.Keys - (remaining - {key}) == (entries.Keys - remaining) + {key};
        match ParseU64(key) {
          case Some(chainId) =>
            networks := networks[chainId := Entry(chainId, entries[key])];
            assert FromEntry(entries, key, networks[chainId]);
          case None =>
        }
        remaining := remaining - {key};
      }
    }
  }

  lemma ParsedIdsAdd(keys: set<string>, key: string)
    ensures ParsedIds(keys + {key}) ==
      ParsedIds(keys) + (if ParseU64(key).Some? then {ParseU64(key).value} else {})
  {
  }

  /** An absent `networks` table and one whose keys are not all decimal ids:
      only the keys that parse give networks. */
  lemma ParsedIdsExample()
    ensures ParsedIds({}) == {}
    ensures ParsedIds({"1", "mainnet", "-5"}) == {1}
  {
  }
}
