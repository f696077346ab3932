/** The download form of `DownloadForm.tsx`: the address check, the network preset, and the
    resolve-and-save flow.

    The resolver (`StorageDownloader.download`) is outside this model; each submission
    receives its outcome as a parameter. The browser save (Blob, object URL, temporary link) is
    traced as effects. */
module Download {
  import opened Wrappers
  import opened JsString

  /** The resolver's network presets. */
  datatype Network = Mainnet | Testnet | Local

  /** The preset the form starts with. */
  const DefaultNetwork: Network := Mainnet

  /** One call of the resolver: the preset it was built with and the address it is asked for. */
  datatype ResolveRequest = ResolveRequest(networkPreset: Network, address: string)

  /** The resolver's answer; either field may be missing. */
  datatype Resolved = Resolved(mimeType: Option<string>, data: Option<seq<byte>>)

  /** What the resolver did: it answered, or it threw. */
  datatype DownloadOutcome = Downloaded(result: Resolved) | DownloadFailed

  /** The browser-side effects of a submission, in order. */
  datatype DomEffect =
    | Save(data: seq<byte>, mimeType: string, fileName: string)  // object URL made, link appended and clicked
    | RemoveLink                                                 // `document.body.removeChild(link)`
    | RevokeObjectUrl                                            // `URL.revokeObjectURL(url)`
    | ErrorNotice                                                // `toast.error(...)`

  /** The `inputsValid` effect: the address is not blank. */
  predicate InputsValid(downloadURL: string) {
    Trim(downloadURL) != ""
  }

  /** The Download button is disabled while a download runs or while the address is blank. */
  predicate DownloadDisabled(loading: bool, downloadURL: string) {
    loading || !InputsValid(downloadURL)
  }

  /** The address is valid exactly when it holds a non-whitespace character, and the button is
      enabled exactly when, in addition, nothing is in flight. */
  lemma InputsValidMeaning(downloadURL: string, loading: bool)
    ensures InputsValid(downloadURL) <==>
              exists k :: 0 <= k < |downloadURL| && !IsWhitespace(downloadURL[k])
    ensures !DownloadDisabled(loading, downloadURL) <==> !loading && InputsValid(downloadURL)
  {
    BlankIffAllWhitespace(downloadURL);
  }

  /** An empty address keeps the button disabled, so the resolver is never asked for it. */
  lemma EmptyAddressDisabled(loading: bool)
    ensures DownloadDisabled(loading, "")
  {
  }

  /** The `!data || !mimeType` test, negated: data present (even empty) and a present,
      non-empty type. */
  predicate Accepted(r: Resolved) {
    r.data.Some? && r.mimeType.Some? && r.mimeType.value != ""
  }

  /** The saved file's name: the trimmed address, or `download` when that is empty. */
  function FileName(downloadURL: string): (name: string)
    ensures |name| > 0
    ensures InputsValid(downloadURL) ==> name == Trim(downloadURL)
    ensures !InputsValid(downloadURL) ==> name == "download"
  {
    var trimmed := Trim(downloadURL);
    if trimmed != "" then trimmed else "download"
  }

  /** The effects of one submission: an accepted answer is saved once under `FileName`, with
      its bytes and type untouched, then the link is removed and the object URL revoked; every
      other outcome yields a single error notice. */
  function DownloadEffects(downloadURL: string, outcome: DownloadOutcome): seq<DomEffect> {
    if outcome.Downloaded? && Accepted(outcome.result) then
      [Save(outcome.result.data.value, outcome.result.mimeType.value, FileName(downloadURL)),
       RemoveLink, RevokeObjectUrl]
    else
      [ErrorNotice]
  }

  /** The number of saves among `effects`. */
  function Saves(effects: seq<DomEffect>): (n: nat)
    ensures n <= |effects|
    decreases |effects|
  {
    if effects == [] then 0 else (if effects[0].Save? then 1 else 0) + Saves(effects[1..])
  }

  /** The number of error notices among `effects`. */
  function Notices(effects: seq<DomEffect>): (n: nat)
    ensures n <= |effects|
    decreases |effects|
  {
    if effects == [] then 0 else (if effects[0] == ErrorNotice then 1 else 0) + Notices(effects[1..])
  }

  /** An accepted answer is saved exactly once, and no notice is shown; any other outcome shows
      exactly one notice and saves nothing. */
  lemma SaveExactlyOnceIffAccepted(downloadURL: string, outcome: DownloadOutcome)
    ensures var es := DownloadEffects(downloadURL, outcome);
      var ok := outcome.Downloaded? && Accepted(outcome.result);
      Saves(es) == (if ok then 1 else 0) && Notices(es) == (if ok then 0 else 1)
  {
    var es := DownloadEffects(downloadURL, outcome);
    if outcome.Downloaded? && Accepted(outcome.result) {
      // the cleanup after the save neither saves nor notifies
      assert es[1..] == [RemoveLink, RevokeObjectUrl];
      var cleanup := [RemoveLink, RevokeObjectUrl];
      assert cleanup[1..] == [RevokeObjectUrl] && cleanup[1..][1..] == [];
      assert Saves(cleanup) == 0 && Notices(cleanup) == 0;
    } else {
      assert es[1..] == [];
    }
  }

  /** The save carries exactly the resolver's bytes and type and the chosen name, and the link
      removal and revocation both come after it. */
  lemma SaveCarriesResolvedBytes(downloadURL: string, mimeType: string, data: seq<byte>)
    requires mimeType != ""
    ensures var es := DownloadEffects(downloadURL, Downloaded(Resolved(Some(mimeType), Some(data))));
      |es| == 3 && es[0] == Save(data, mimeType, FileName(downloadURL)) &&
      RemoveLink in es[1..] && RevokeObjectUrl in es[1..] && Saves(es[1..]) == 0
  {
  }

  /** An answer with an empty type is a failure although nothing was thrown; an answer with
      empty data and a type is saved. */
  lemma EmptyTypeRejectedEmptyDataAccepted(downloadURL: string, data: seq<byte>, mimeType: string)
    requires mimeType != ""
    ensures DownloadEffects(downloadURL, Downloaded(Resolved(Some(""), Some(data)))) == [ErrorNotice]
    ensures DownloadEffects(downloadURL, Downloaded(Resolved(Some(mimeType), Some([])))) ==
              [Save([], mimeType, FileName(downloadURL)), RemoveLink, RevokeObjectUrl]
  {
  }

  /** The mounted download form. */
  class DownloadForm {
    var downloadURL: string
    var network: Network
    var loading: bool

    /** The `inputsValid` flag as the effect leaves it. */
    predicate IsInputsValid()
      reads this
    {
      InputsValid(downloadURL)
    }

    constructor ()
      ensures downloadURL == "" && network == DefaultNetwork && !loading
      ensures !IsInputsValid()
    {
      downloadURL := "";
      network := DefaultNetwork;
      loading := false;
    }

    /** The address field's `onChange`. */
    method SetDownloadURL(value: string)
      modifies this
      ensures downloadURL == value && network == old(network) && loading == old(loading)
    {
      downloadURL := value;
    }

    /** The network menu's `onChange`. */
    method SetNetwork(value: Network)
      modifies this
      ensures network == value && downloadURL == old(downloadURL) && loading == old(loading)
    {
      network := value;
    }

    /** `handleDownload`, run to completion: the resolver is built for the selected preset and
        asked for the trimmed address; the effects are those of `DownloadEffects`; the form
        ends with `loading` false whatever happened. */
    method HandleDownload(outcome: DownloadOutcome) returns (request: ResolveRequest, effects: seq<DomEffect>)
      modifies this
      ensures request == ResolveRequest(old(network), Trim(old(downloadURL)))
      ensures effects == DownloadEffects(old(downloadURL), outcome)
      ensures !loading && downloadURL == old(downloadURL) && network == old(network)
    {
      loading := true;
      var address := Trim(downloadURL);
      request := ResolveRequest(network, address);
      if outcome.DownloadFailed? || !Accepted(outcome.result) {
        // thrown by the resolver or by the missing-field check; caught once
        effects := [ErrorNotice];
      } else {
        var link := FileName(downloadURL);
        // save (blob, object URL, link appended and clicked), then remove the link, then revoke
        effects := [Save(outcome.result.data.value, outcome.result.mimeType.value, link),
                    RemoveLink, RevokeObjectUrl];
      }
      // finally
      loading := false;
    }
  }
}
