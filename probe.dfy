/** The wallet probe of `checkForMetaNetClient`: it asks the wallet client for its network
    and folds the outcome into a number. */
module MetaNetProbe {

  /** What the wallet's `getNetwork()` call did: it threw, or it answered with a network name. */
  datatype NetworkOutcome = Threw | Reported(network: string)

  /** Networks the probe recognises as a working wallet. */
  predicate IsKnownNetwork(network: string) {
    network == "mainnet" || network == "testnet"
  }

  /** The probe result: `1` for a known network, `-1` for any other network value, `0` when the
      call threw. */
  function Classify(outcome: NetworkOutcome): (r: int)
    ensures -1 <= r <= 1
    ensures r == 1 ==> outcome.Reported?
    ensures r == 0 <==> outcome.Threw?
  {
    match outcome
    case Threw => 0
    case Reported(network) => if IsKnownNetwork(network) then 1 else -1
  }

  /** The three outcomes are told apart exactly: `1` means a successful call naming mainnet or
      testnet, `-1` a successful call naming anything else. */
  lemma ClassifyCases(outcome: NetworkOutcome)
    ensures Classify(outcome) == 1 <==> outcome.Reported? && IsKnownNetwork(outcome.network)
    ensures Classify(outcome) == -1 <==> outcome.Reported? && !IsKnownNetwork(outcome.network)
  {
  }
}
