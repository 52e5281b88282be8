/** The `App` component's state that the refreshes touch: the active provider
    and the `contracts` registry, replaced wholesale by `setContracts`. */
module AppStore {
  import opened Wrappers
  import opened Registry
  import opened Sync

  class Store<Utxo> {
    /** The active provider (`provider` state). */
    var provider: Provider<Utxo>
    /** The tracked contracts (`contracts` state), `undefined` at start. */
    var contracts: Option<seq<Record<Utxo>>>

    /** The initial state: the given provider and no registry yet. */
    constructor (provider: Provider<Utxo>)
      ensures this.provider == provider && contracts == None
    {
      this.provider := provider;
      contracts := None;
    }

    /** `updateUtxosContract(nameContract)`: looks the name up, copies every
        record's UTXO list into a local array, overwrites the found slot
        with the fetched list and installs a fresh registry built from the
        array. Only `contracts` changes, and only on success. */
    method UpdateUtxosContract(nameContract: string) returns (run: Run<Utxo>)
      modifies this`contracts
      ensures run == SingleRefresh(old(contracts), nameContract, provider)
      ensures contracts == After(old(contracts), run.outcome)
    {
      if contracts.None? {
        return Run(Unchanged, []);
      }
      var cs := contracts.value;
      var contractIndex := FindIndex(cs, nameContract);
      if contractIndex == -1 {
        // `contracts[-1]` is undefined; reading `.contract` from it throws
        return Run(Failed(UndefinedDereference), []);
      }
      var address := cs[contractIndex].address;
      var utxosList := new seq<Utxo>[|cs|](j requires 0 <= j < |cs| => OrEmpty(cs[j].utxos));
      var contractUtxos := provider(address);
      if contractUtxos.Err? {
        return Run(Failed(ProviderRejected(contractUtxos.error)), [address]);
      }
      ghost var normalised := seq(|cs|, j requires 0 <= j < |cs| => OrEmpty(cs[j].utxos));
      assert utxosList[..] == normalised;
      utxosList[contractIndex] := contractUtxos.value;
      assert utxosList[..] == normalised[contractIndex := contractUtxos.value];
      var newContracts := seq(|cs|, j requires 0 <= j < |cs| reads utxosList => cs[j].(utxos := Some(utxosList[j])));
      ghost var updated := normalised[contractIndex := contractUtxos.value];
      assert newContracts == seq(|cs|, j requires 0 <= j < |cs| => cs[j].(utxos := Some(updated[j])));
      contracts := Some(newContracts);
      run := Run(Installed(newContracts), [address]);
    }

    /** `updateAllUtxosContracts()`: computes the bulk refresh from the
        current registry and installs its result when every query
        fulfilled. Only `contracts` changes, and only on success. */
    method UpdateAllUtxosContracts() returns (run: Run<Utxo>)
      modifies this`contracts
      ensures run == BulkRefresh(old(contracts), provider)
      ensures contracts == After(old(contracts), run.outcome)
    {
      run := BulkRefresh(contracts, provider);
      if run.outcome.Installed? {
        contracts := Some(run.outcome.registry);
      }
    }
  }
}
