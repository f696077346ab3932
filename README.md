# UHRP storage UI: a Dafny model of its client logic

This project models the decision logic of the UHRP storage web front end. The front end lets a
user publish a file to a UHRP storage server and get back its content-addressed `uhrpURL`. It
also lets the user download content by that address. While the form runs, the front end polls
for a local MetaNet wallet client and shows a blocking modal when none answers. The model has
five parts:

- `JsString` (`js_string.dfy`): JavaScript's `String.prototype.trim`, which every blank check
  uses. Whitespace is ECMAScript WhiteSpace plus LineTerminator.
- `MetaNetProbe` (`probe.dfy`): the `checkForMetaNetClient` classifier. It maps the result of
  `getNetwork()` to `1` (mainnet or testnet), `-1` (any other network) or `0` (the call threw).
- `AppShell` (`app_shell.dfy`): the `App` component. It covers the one-second poll interval, the
  closure that clears it (taken to run on unmount, see "Left out"), `MNCmissing`, the modal's close handler, and the tab index that picks the form.
  The pure `Monitor` state with `Step`/`Run` is the specification. Each method of the `App`
  class is proved to perform exactly that step. A trace of effects (`Probe`,
  `AwaitAuthentication`, `ClearInterval`, `SetMissing`) records the order of the steps inside
  a tick.
- `Upload` (`upload_form.dfy`): the `UploadForm` component. It covers the server list and the
  "add a server" dialog, the Duration menu, the validity rule, and the `handleUpload` flow.
- `Download` (`download_form.dfy`): the `DownloadForm` component. It covers the address check,
  the network preset, the accepted-result test, the file name choice, and the `handleDownload`
  flow with its browser effects.

Calls into the SDK are not modelled inside. Each one is an oracle whose outcome the handler
receives as a parameter: a success with a value, or a failure. These are `getNetwork`,
`waitForAuthentication`, `file.arrayBuffer()`, `StorageUploader.publishFile` and
`StorageDownloader.download`. The list `constants.storageURLs` comes from
`frontend/src/utils/constants.js`, which is not part of this model, so the upload form takes it
as a constructor parameter (`seed`).

Where the code and the intended design differ, the model follows the code:

- The "Add" check is made against the seed list, not against the current list. So a server
  that is not a seed can be added twice (`Upload.AddTwiceDuplicates`). The appended value is
  the untrimmed text.
- An empty file is not rejected, because an empty `ArrayBuffer` is truthy. Only a read that
  throws stops the upload before the publisher.
- `handleUpload` and `handleDownload` do not check validity themselves. Only the disabled
  button keeps an invalid form from being submitted. The model states both the button rule and
  what the handlers do when they run.
- Any probe answer other than `0` counts as present, including `-1`.
- A tick authenticates and then clears the interval. So after the first successful
  authentication, polling stops for good. For "throws, mainnet, throws" the third tick never
  runs (`AppShell.ThrowMainnetThrow`), and the modal would not reappear.
- `App.tsx` imports its wallet probe from the `metanet-react-prompt` package. The model feeds the
  loop from the local classifier's range instead (any integer is accepted; the loop only compares it with `0`).
- If `waitForAuthentication` rejects, the interval callback's promise rejects before
  `clearInterval` runs. Polling goes on and `MNCmissing` is unchanged.

## Model

| member | source | states |
|---|---|---|
| JsString.TrimStart | frontend/src/components/DownloadForm.tsx:29 | the result is a suffix of the input that is empty or starts with a non-whitespace character |
| JsString.TrimStartDropsWhitespace | frontend/src/components/DownloadForm.tsx:29 | every character that `TrimStart` drops is whitespace |
| JsString.TrimEnd | frontend/src/components/DownloadForm.tsx:29 | the result is a prefix of the input that is empty or ends with a non-whitespace character |
| JsString.TrimEndDropsWhitespace | frontend/src/components/DownloadForm.tsx:29 | every character that `TrimEnd` drops is whitespace |
| JsString.Trim | frontend/src/components/DownloadForm.tsx:29 | the trimmed string is no longer than the input and neither starts nor ends with whitespace |
| JsString.TrimIsMiddleSlice | frontend/src/components/DownloadForm.tsx:29 | the trimmed string is a contiguous slice of the input, and everything dropped before and after it is whitespace |
| JsString.BlankIffAllWhitespace | frontend/src/components/UploadForm.tsx:51 | `s.trim() === ''` holds exactly when every character of `s` is whitespace |
| JsString.TrimIdempotent | frontend/src/components/DownloadForm.tsx:41 | trimming an already trimmed string changes nothing |
| JsString.NonBlankWitness | frontend/src/components/UploadForm.tsx:51 | one non-whitespace character anywhere makes a string non-blank |
| MetaNetProbe.Classify | frontend/src/utils/checkForMetaNetClient.ts:5-16 | the result is in {-1, 0, 1}; `0` exactly when `getNetwork` threw; `1` only from a call that succeeded |
| MetaNetProbe.ClassifyCases | frontend/src/utils/checkForMetaNetClient.ts:7-11 | `1` exactly for a reported mainnet or testnet, `-1` exactly for any other reported network |
| AppShell.TickEffects | frontend/src/App.tsx:18-28 | every tick starts with one probe; it marks the wallet missing exactly when the probe answered `0`; it clears the interval exactly when the probe answered non-zero and authentication succeeded |
| AppShell.TickCounts | frontend/src/App.tsx:19-26 | one tick issues exactly one probe and at most one successful authentication, and that only for a non-zero answer |
| AppShell.TickResult | frontend/src/App.tsx:18-28 | with the interval active, a tick appends its effects to the trace; `MNCmissing` becomes true on `0`, false after a successful authentication, and is otherwise kept; the interval stays active unless authentication succeeded |
| AppShell.MissingTickKeepsPolling | frontend/src/App.tsx:19-21 | a `0` answer sets `MNCmissing`, keeps the interval, adds one probe and no authentication |
| AppShell.PresentTickStopsPolling | frontend/src/App.tsx:22-27 | a non-zero answer (also `-1`) awaits authentication, then clears the interval, then clears `MNCmissing`, in that order; a rejected wait leaves the interval and `MNCmissing` as they were |
| AppShell.StepValid | frontend/src/App.tsx:17-31 | every tick, modal close and teardown keeps the invariant "at most one successful authentication, and none while the interval is still active" |
| AppShell.RunValid | frontend/src/App.tsx:17-31 | any sequence of events from a state that satisfies the invariant ends in one that satisfies it |
| AppShell.AuthenticatesAtMostOnce | frontend/src/App.tsx:22-26 | from mounting, whatever follows, authentication succeeds at most once |
| AppShell.StoppedStaysQuiet | frontend/src/App.tsx:25-31 | once the interval is cleared, by a tick or by teardown, no further probe or authentication happens and the interval stays cleared |
| AppShell.TeardownIdempotent | frontend/src/App.tsx:29-31 | teardown clears the interval; a second teardown, or a teardown after a tick cleared it, changes nothing |
| AppShell.CloseModalKeepsPolling | frontend/src/App.tsx:41 | closing the modal hides it and leaves the interval and the trace as they were |
| AppShell.ThrowKnownThrow | frontend/src/App.tsx:18-28 | from any polling state, probe outcomes "throws, known network, throws" end with the modal hidden, polling stopped, two more probes and exactly one more authentication |
| AppShell.ThrowMainnetThrow | frontend/src/App.tsx:18-28 | right after mounting, probe outcomes "throws, mainnet, throws" end with the modal hidden, polling stopped, two probes and exactly one authentication |
| AppShell.ExactlyOneFormPerTab | frontend/src/App.tsx:71-73 | exactly one form is shown for tab index 0, 1 or 2, and none for any other index |
| AppShell.App.constructor | frontend/src/App.tsx:14-18 | mounting starts on tab 0 with `MNCmissing` false and the interval registered |
| AppShell.App.Tick | frontend/src/App.tsx:18-28 | the interval callback performs exactly `Step` for a tick and keeps the invariant; the tab is untouched |
| AppShell.App.CloseModal | frontend/src/App.tsx:41 | the modal's close handler performs exactly `Step` for a close |
| AppShell.App.Teardown | frontend/src/App.tsx:29-31 | the closure returned by the mount effect, when called, performs exactly `Step` for a teardown |
| AppShell.App.HandleTabChange | frontend/src/App.tsx:35-37 | the chosen index becomes `tabIndex`; the wallet state is unchanged |
| Upload.DurationOptions | frontend/src/components/UploadForm.tsx:177-191 | the fifteen menu values are strictly increasing, all at least 15, and include 15 and the default 180 |
| Upload.EveryDurationPassesRetentionCheck | frontend/src/components/UploadForm.tsx:170-191 | for any menu value the retention part of validity holds, so validity depends only on the server and the file |
| Upload.FormValidMeaning | frontend/src/components/UploadForm.tsx:49-53 | validity holds exactly when the server URL has a non-whitespace character, the retention is at least 15 and a file is chosen; Upload is enabled exactly when the form is valid and not loading |
| Upload.InputsValidIsServerCheck | frontend/src/components/UploadForm.tsx:39-41 | the doubled `inputsValid` test is exactly "server URL not blank" and is implied by form validity |
| Upload.PublishPlan | frontend/src/components/UploadForm.tsx:66-89 | the publisher is reached exactly when there is a file and its read produced a buffer; without a file the error is "no file"; the request carries exactly the bytes read, a size equal to their count, the file's type, the chosen retention and the chosen server |
| Upload.ResultsAfter | frontend/src/components/UploadForm.tsx:91-97 | `results` changes only after a sent request that succeeded, and then to the returned address unchanged; otherwise the prior value stays |
| Upload.TenBytesToNode | frontend/src/components/UploadForm.tsx:82-94 | ten bytes sent to a named server with the default retention give a request of those ten bytes, size 10 and retention 180, and on success the form shows the returned address |
| Upload.AddOption | frontend/src/components/UploadForm.tsx:132-139 | the list either stays as it was or gains the untrimmed candidate at its end; it gains it exactly when the candidate is accepted; the old list is always a prefix |
| Upload.AddAcceptedMeansEnabled | frontend/src/components/UploadForm.tsx:244-252 | a candidate is accepted exactly when the Add button is enabled for it and it is not a seed server |
| Upload.AddTwiceDuplicates | frontend/src/components/UploadForm.tsx:133-134 | an accepted non-seed candidate added twice appears twice |
| Upload.SeedServerNotAddedAgain | frontend/src/components/UploadForm.tsx:133 | adding any seed server leaves the list unchanged |
| Upload.UploadForm.constructor | frontend/src/components/UploadForm.tsx:26-47 | mounting lists the seed servers, selects the first one (or '' when there is none), sets a retention of 180 and no file, results, dialog or candidate |
| Upload.UploadForm.SelectDuration | frontend/src/components/UploadForm.tsx:175 | the chosen menu value becomes `hostingMinutes`; nothing else changes |
| Upload.UploadForm.HandleFileChange | frontend/src/components/UploadForm.tsx:104-117 | an empty selection clears the file; a first entry that is a file becomes the file; any other first entry keeps the file |
| Upload.UploadForm.HandleSelectChange | frontend/src/components/UploadForm.tsx:119-126 | the sentinel opens the dialog and keeps the server; any other value becomes the server and keeps the dialog flag |
| Upload.UploadForm.HandleCloseDialog | frontend/src/components/UploadForm.tsx:128-130 | the dialog closes; nothing else changes |
| Upload.UploadForm.EditNewOption | frontend/src/components/UploadForm.tsx:229 | the typed text becomes `newOption`; nothing else changes |
| Upload.UploadForm.HandleAddOption | frontend/src/components/UploadForm.tsx:132-139 | an accepted candidate is appended, selected and cleared, and the dialog closes; a refused one changes nothing; the seed servers stay at the head of the list |
| Upload.UploadForm.HandleUpload | frontend/src/components/UploadForm.tsx:55-102 | the request handed to the publisher is exactly `PublishPlan`'s, and none is handed over without a file and a read buffer; `results` is `ResultsAfter`'s; on every path `loading` ends false and the progress at 0; the other fields are unchanged |
| Download.InputsValidMeaning | frontend/src/components/DownloadForm.tsx:28-30 | the address is valid exactly when it has a non-whitespace character; Download is enabled exactly when the address is valid and nothing is loading |
| Download.EmptyAddressDisabled | frontend/src/components/DownloadForm.tsx:117 | an empty address keeps Download disabled |
| Download.FileName | frontend/src/components/DownloadForm.tsx:55 | the file name is never empty; for a valid address it is the trimmed address, otherwise `download` |
| Download.SaveExactlyOnceIffAccepted | frontend/src/components/DownloadForm.tsx:43-67 | an accepted answer causes exactly one save and no notice; a thrown call or a rejected answer causes exactly one notice and no save |
| Download.SaveCarriesResolvedBytes | frontend/src/components/DownloadForm.tsx:47-61 | the save carries the resolver's bytes and type untransformed under `FileName`; the link removal and the URL revocation come after it |
| Download.EmptyTypeRejectedEmptyDataAccepted | frontend/src/components/DownloadForm.tsx:43-45 | an empty `mimeType` is a failure although nothing threw; empty data with a type is saved |
| Download.DownloadForm.constructor | frontend/src/components/DownloadForm.tsx:22-25 | the form starts with an empty address, the mainnet preset, not loading, and invalid inputs |
| Download.DownloadForm.SetDownloadURL | frontend/src/components/DownloadForm.tsx:87 | the typed text becomes the address; nothing else changes |
| Download.DownloadForm.SetNetwork | frontend/src/components/DownloadForm.tsx:99-102 | the chosen preset becomes the network; nothing else changes |
| Download.DownloadForm.HandleDownload | frontend/src/components/DownloadForm.tsx:32-68 | the resolver is built with the selected preset and asked for the trimmed address; the effects are exactly `DownloadEffects`'s; on every path `loading` ends false |

## Left out

- Rendering is not modelled: JSX, MUI layout, dialog styling, the progress bar and toast or console output. The toast is kept only as the `ErrorNotice` effect.
- The internals of `WalletClient`, `StorageUploader` and `StorageDownloader` are not modelled, and neither are UHRP hashing and addressing. These are foreign SDK calls and appear as outcome parameters.
- The constructors `new WalletClient(...)` and `new StorageUploader(...)` in the upload form are taken not to throw (UploadForm.tsx:60-64). If one did throw, the state effects would match a failed publish.
- `new StorageDownloader(...)` (DownloadForm.tsx:38) is taken not to throw. If it did, the user would get one notice and the resolver would never be called, while `Download.DownloadForm.HandleDownload` always returns a `request`.
- `await new WalletClient()` in the poll callback (App.tsx:23) is taken not to throw. If it did, the tick would end like one whose `waitForAuthentication` rejected (`Tick` with `authOk` false), except that no `AwaitAuthentication` effect would be traced.
- The publisher's answer is taken to carry a `uhrpURL` string. An answer without one would put `undefined` into `results`, and that case is not modelled.
- Blobs, `URL.createObjectURL` and the anchor element are browser I/O. They are traced only as one `Save` (bytes, type, name) followed by `RemoveLink` and `RevokeObjectUrl`. The resolver's `number[]` is taken to already hold octets, so the `Uint8Array` truncation is not modelled.
- `setInterval` callbacks overlap in the real code. Here ticks run one after another, each to completion. The one-second period and the timer itself are not modelled.
- A callback still in flight at teardown could write state after unmount. Because ticks are sequential, that case is not modelled.
- Handlers are modelled as atomic. The `loading = true` seen by the UI during the awaits of `handleUpload` and `handleDownload` therefore never shows between two modelled steps.
- React effect timing is not modelled. `isFormValid` and `inputsValid` are derived predicates of the current fields, not state that catches up after a render.
- `actionTXID` is not modelled: it is only ever reset to `''`. `uploadProgress` is modelled only as being reset to 0.
- `FilesForm` and `Footer` are not modelled beyond which tab shows them.
- The `metanet-react-prompt` package's own `checkForMetaNetClient` and `NoMncModal` are not part of this model.
- `frontend/src/utils/constants.js` is not part of this model. Its `storageURLs` list is a constructor parameter, one `seq<string>` used both for the initial list and for the duplicate check. The code converts the entries with `.toString()` for the list (UploadForm.tsx:27, :45) but calls `.includes(newOption)` on the raw array (UploadForm.tsx:133), so the model assumes the entries already are strings. If they were not, the duplicate check would never match and every non-blank candidate would be accepted.
- Upload.UploadForm.SelectDuration: requires the value to be one of the menu's items. The code takes whatever the menu reports (`Number(e.target.value)`), and the menu offers only those items.
- Download.DownloadForm.SetNetwork: takes a `Network`. The code casts the menu's string (`value as NetworkType`), and the menu offers only the three presets.
- AppShell.App.Teardown: the model takes the closure the mount effect resolves to (App.tsx:29-31) as running on unmount, like a React effect cleanup. The effect is an `async` function passed to `useAsyncEffect` from `use-async-effect` (App.tsx:4, :17), so it returns a Promise rather than a cleanup function, and that hook, called with `[]` as its second argument, runs no destroy callback. Called this way, unmounting may leave the interval running. The hook's code is not part of this model. The same assumption underlies `AppShell.TeardownIdempotent` and the "by teardown" half of `AppShell.StoppedStaysQuiet`.
