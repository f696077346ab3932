/** The upload form of `UploadForm.tsx`: the storage-server list with its "add a server"
    dialog, the retention menu, the submit-validity rule and the publish flow.

    The publisher (`StorageUploader.publishFile`) and the file read (`file.arrayBuffer()`) are
    outside this model; each submission receives their outcomes as parameters. */
module Upload {
  import opened Wrappers
  import opened JsString

  /** The shortest retention the form accepts, in minutes. */
  const MinRetention: int := 15

  /** The retention the form starts with: three hours. */
  const DefaultRetention: int := 180

  /** The value of the server menu's last item, which opens the dialog instead of selecting. */
  const AddNewOption: string := "add-new-option"

  /** The values of the Duration menu, in minutes, from 15 minutes to 100 years. */
  function DurationOptions(): (r: seq<int>)
    ensures |r| == 15
    ensures forall i :: 0 <= i < |r| ==> r[i] >= MinRetention
    ensures MinRetention in r && DefaultRetention in r
    ensures forall i, j :: 0 <= i < j < |r| ==> r[i] < r[j]
  {
    [15, 180, 1440, 1440 * 7, 1440 * 30, 1440 * 90, 1440 * 180,
     525600, 525600 * 2, 525600 * 5, 525600 * 10, 525600 * 20, 525600 * 30, 525600 * 50,
     525600 * 100]
  }

  /** A file chosen in the file input; its bytes are only known once read. */
  datatype LocalFile = LocalFile(name: string, mimeType: string)

  /** One entry of the input's `files` list, which may fail the `instanceof File` test. */
  datatype Picked = NotAFile | AFile(file: LocalFile)

  /** The `{ data, size, type }` object handed to the publisher. */
  datatype UploadableFile = UploadableFile(data: seq<byte>, size: int, mimeType: string)

  /** One call of the publisher: the server the uploader was built for, the file and the
      retention period. */
  datatype PublishRequest = PublishRequest(storageURL: string, file: UploadableFile, retentionPeriod: int)

  /** What the publisher did with a request. */
  datatype PublishOutcome = Published(uhrpURL: string) | PublishFailed

  /** Why a submission stopped before reaching the publisher. */
  datatype UploadError = NoFile | UnreadableFile

  /** How a submission proceeds: it reaches the publisher with a request, or stops early. */
  datatype Plan = Send(request: PublishRequest) | Abort(error: UploadError)

  /** The `isFormValid` effect: a non-blank server, a long enough retention and a chosen file. */
  predicate FormValid(storageURL: string, hostingMinutes: int, file: Option<LocalFile>) {
    !IsBlank(storageURL) && hostingMinutes >= MinRetention && file.Some?
  }

  /** The Upload button is enabled when nothing is in flight and the form is valid. */
  predicate UploadEnabled(loading: bool, storageURL: string, hostingMinutes: int, file: Option<LocalFile>) {
    !(loading || !FormValid(storageURL, hostingMinutes, file))
  }

  /** The `inputsValid` effect, which tests the same trimmed server URL twice. */
  predicate InputsValid(storageURL: string) {
    Trim(storageURL) != "" && Trim(storageURL) != ""
  }

  /** The form is valid exactly when the server URL has a non-whitespace character, the
      retention is at least 15 minutes and a file is chosen; Upload is enabled exactly when,
      in addition, no upload is in flight. */
  lemma FormValidMeaning(storageURL: string, hostingMinutes: int, file: Option<LocalFile>, loading: bool)
    ensures FormValid(storageURL, hostingMinutes, file) <==>
              (exists k :: 0 <= k < |storageURL| && !IsWhitespace(storageURL[k])) &&
              hostingMinutes >= 15 && file.Some?
    ensures UploadEnabled(loading, storageURL, hostingMinutes, file) <==>
              !loading && FormValid(storageURL, hostingMinutes, file)
  {
    BlankIffAllWhitespace(storageURL);
  }

  /** The never-read `inputsValid` flag is the server half of the form's validity. */
  lemma InputsValidIsServerCheck(storageURL: string, hostingMinutes: int, file: Option<LocalFile>)
    ensures InputsValid(storageURL) <==> !IsBlank(storageURL)
    ensures FormValid(storageURL, hostingMinutes, file) ==> InputsValid(storageURL)
  {
  }

  /** No choice on the Duration menu is ever rejected by the retention check. */
  lemma EveryDurationPassesRetentionCheck(minutes: int, storageURL: string, file: Option<LocalFile>)
    requires minutes in DurationOptions()
    ensures FormValid(storageURL, minutes, file) <==> !IsBlank(storageURL) && file.Some?
  {
  }

  /** The part of `handleUpload` before the publisher: without a file, or when the read throws,
      it stops; otherwise it sends the bytes read, their count and the file's type, with the
      chosen retention, to the uploader built for the chosen server. An empty file still
      reaches the publisher. */
  function PublishPlan(storageURL: string, hostingMinutes: int, file: Option<LocalFile>,
                       read: Option<seq<byte>>): (p: Plan)
    ensures p.Send? <==> file.Some? && read.Some?
    ensures file.None? ==> p == Abort(NoFile)
    ensures p.Send? ==>
              p.request.file.data == read.value &&
              p.request.file.size == |p.request.file.data| &&
              p.request.file.mimeType == file.value.mimeType &&
              p.request.retentionPeriod == hostingMinutes &&
              p.request.storageURL == storageURL
  {
    match file
    case None => Abort(NoFile)
    case Some(f) =>
      match read
      case None => Abort(UnreadableFile)
      case Some(data) => Send(PublishRequest(storageURL, UploadableFile(data, |data|, f.mimeType), hostingMinutes))
  }

  /** The form's `results` after a submission: the publisher's address, unchanged, when the
      request was sent and succeeded; otherwise whatever was shown before. */
  function ResultsAfter(prior: Option<string>, plan: Plan, outcome: PublishOutcome): (r: Option<string>)
    ensures r != prior ==> plan.Send? && outcome.Published? && r == Some(outcome.uhrpURL)
    ensures plan.Send? && outcome.Published? ==> r == Some(outcome.uhrpURL)
  {
    if plan.Send? && outcome.Published? then Some(outcome.uhrpURL) else prior
  }

  /** A ten-byte file sent to a named server with the default retention: the publisher gets
      those ten bytes, size ten and a retention of 180, and the form shows the returned address. */
  lemma TenBytesToNode(data: seq<byte>, mimeType: string, address: string, prior: Option<string>)
    requires |data| == 10
    ensures var p := PublishPlan("https://node.example", DefaultRetention,
                                 Some(LocalFile("f", mimeType)), Some(data));
      p == Send(PublishRequest("https://node.example", UploadableFile(data, 10, mimeType), 180)) &&
      ResultsAfter(prior, p, Published(address)) == Some(address)
  {
  }

  /** The "Add" rule of the dialog: a candidate that is not blank and is not one of the seed
      servers. The check is against the seed list, not against the current list. */
  predicate AddAccepted(seed: seq<string>, newOption: string) {
    !IsBlank(newOption) && newOption !in seed
  }

  /** The server list after "Add": the candidate, untrimmed, appended when accepted. */
  function AddOption(seed: seq<string>, urls: seq<string>, newOption: string): (r: seq<string>)
    ensures r == urls || (AddAccepted(seed, newOption) && r == urls + [newOption])
    ensures AddAccepted(seed, newOption) ==> |r| == |urls| + 1 && r[|urls|] == newOption
    ensures r[..|urls|] == urls
  {
    if AddAccepted(seed, newOption) then urls + [newOption] else urls
  }

  /** The "Add" button is enabled exactly when the candidate is not blank. */
  predicate AddEnabled(newOption: string) {
    !IsBlank(newOption)
  }

  /** An accepted candidate always had the Add button enabled; an enabled button is refused
      exactly for the seed servers. */
  lemma AddAcceptedMeansEnabled(seed: seq<string>, newOption: string)
    ensures AddAccepted(seed, newOption) <==> AddEnabled(newOption) && newOption !in seed
  {
  }

  /** A candidate that is not a seed server is accepted again and again: adding the same server
      twice lists it twice. */
  lemma AddTwiceDuplicates(seed: seq<string>, urls: seq<string>, newOption: string)
    requires AddAccepted(seed, newOption)
    ensures AddOption(seed, AddOption(seed, urls, newOption), newOption) == urls + [newOption, newOption]
  {
  }

  /** Adding a seed server, or a blank one, is refused, so the seed servers are never listed
      twice by the dialog. */
  lemma SeedServerNotAddedAgain(seed: seq<string>, urls: seq<string>, k: nat)
    requires k < |seed|
    ensures AddOption(seed, urls, seed[k]) == urls
  {
  }

  /** The mounted upload form. */
  class UploadForm {
    /** The configured server list `constants.storageURLs`. */
    const seed: seq<string>
    var storageURL: string
    var storageURLs: seq<string>
    var hostingMinutes: int
    var loading: bool
    var file: Option<LocalFile>
    var uploadProgress: int
    var results: Option<string>
    var openDialog: bool
    var newOption: string

    /** Between handlers: the retention is a menu value, nothing is in flight, the progress
        bar is at zero and the seed servers head the list. */
    ghost predicate Valid()
      reads this
    {
      hostingMinutes in DurationOptions() && !loading && uploadProgress == 0 &&
      |seed| <= |storageURLs| && storageURLs[..|seed|] == seed
    }

    /** The `isFormValid` flag as the effects leave it. */
    predicate IsFormValid()
      reads this
    {
      FormValid(storageURL, hostingMinutes, file)
    }

    /** Mounting, with the mount effect that selects the first seed server. */
    constructor (configured: seq<string>)
      ensures seed == configured && storageURLs == configured
      ensures storageURL == (if |configured| > 0 then configured[0] else "")
      ensures hostingMinutes == DefaultRetention && file == None && results == None
      ensures !openDialog && newOption == ""
      ensures Valid() && !IsFormValid()
    {
      seed := configured;
      storageURLs := configured;
      storageURL := if |configured| > 0 then configured[0] else "";
      hostingMinutes := DefaultRetention;
      loading := false;
      file := None;
      uploadProgress := 0;
      results := None;
      openDialog := false;
      newOption := "";
    }

    /** The Duration menu's `onChange`, which only ever reports one of its items. */
    method SelectDuration(minutes: int)
      requires Valid() && minutes in DurationOptions()
      modifies this
      ensures Valid() && hostingMinutes == minutes
      ensures storageURL == old(storageURL) && storageURLs == old(storageURLs) && file == old(file)
      ensures results == old(results) && openDialog == old(openDialog) && newOption == old(newOption)
    {
      hostingMinutes := minutes;
    }

    /** `handleFileChange`: an empty selection clears the file; a first entry that is a file
        becomes the file; any other first entry leaves the file as it was. */
    method HandleFileChange(selected: seq<Picked>)
      requires Valid()
      modifies this
      ensures Valid()
      ensures file == (if |selected| == 0 then None
                       else if selected[0].AFile? then Some(selected[0].file)
                       else old(file))
      ensures |selected| == 0 ==> !IsFormValid()
      ensures storageURL == old(storageURL) && storageURLs == old(storageURLs)
      ensures hostingMinutes == old(hostingMinutes) && results == old(results)
      ensures openDialog == old(openDialog) && newOption == old(newOption)
    {
      if |selected| > 0 {
        match selected[0]
        case AFile(f) => file := Some(f);
        case NotAFile =>
      } else {
        file := None;
      }
    }

    /** `handleSelectChange`: the sentinel opens the dialog and keeps the selected server; any
        other value becomes the selected server and leaves the dialog as it was. */
    method HandleSelectChange(value: string)
      requires Valid()
      modifies this
      ensures Valid()
      ensures value == AddNewOption ==> openDialog && storageURL == old(storageURL)
      ensures value != AddNewOption ==> storageURL == value && openDialog == old(openDialog)
      ensures storageURLs == old(storageURLs) && newOption == old(newOption)
      ensures hostingMinutes == old(hostingMinutes) && file == old(file) && results == old(results)
    {
      if value == AddNewOption {
        openDialog := true;
      } else {
        storageURL := value;
      }
    }

    /** `handleCloseDialog`, for Cancel and for dismissing the dialog. */
    method HandleCloseDialog()
      requires Valid()
      modifies this
      ensures Valid() && !openDialog
      ensures storageURL == old(storageURL) && storageURLs == old(storageURLs)
      ensures newOption == old(newOption) && hostingMinutes == old(hostingMinutes)
      ensures file == old(file) && results == old(results)
    {
      openDialog := false;
    }

    /** The dialog's text field `onChange`. */
    method EditNewOption(value: string)
      requires Valid()
      modifies this
      ensures Valid() && newOption == value
      ensures storageURL == old(storageURL) && storageURLs == old(storageURLs)
      ensures openDialog == old(openDialog) && hostingMinutes == old(hostingMinutes)
      ensures file == old(file) && results == old(results)
    {
      newOption := value;
    }

    /** `handleAddOption`: an accepted candidate is appended, selected and cleared and the
        dialog closes; a refused one changes nothing. */
    method HandleAddOption()
      requires Valid()
      modifies this
      ensures Valid()
      ensures storageURLs == AddOption(seed, old(storageURLs), old(newOption))
      ensures AddAccepted(seed, old(newOption)) ==>
                storageURL == old(newOption) && newOption == "" && !openDialog
      ensures !AddAccepted(seed, old(newOption)) ==>
                storageURL == old(storageURL) && newOption == old(newOption) &&
                openDialog == old(openDialog)
      ensures hostingMinutes == old(hostingMinutes) && file == old(file) && results == old(results)
    {
      if AddAccepted(seed, newOption) {
        assert (storageURLs + [newOption])[..|seed|] == storageURLs[..|seed|];
        storageURLs := storageURLs + [newOption];
        storageURL := newOption;
        newOption := "";
        openDialog := false;
      }
    }

    /** `handleUpload`, run to completion: `sent` is the request handed to the publisher, if
        any. The publisher is reached only with a file whose bytes were read; `results` shows
        the returned address on success and is kept otherwise; on every path the form ends with
        `loading` false and the progress at zero. */
    method HandleUpload(read: Option<seq<byte>>, outcome: PublishOutcome) returns (sent: Option<PublishRequest>)
      requires Valid()
      modifies this
      ensures Valid()
      ensures var plan := PublishPlan(storageURL, hostingMinutes, old(file), read);
        (sent.Some? <==> plan.Send?) && (sent.Some? ==> sent.value == plan.request) &&
        results == ResultsAfter(old(results), plan, outcome)
      ensures !loading && uploadProgress == 0
      ensures storageURL == old(storageURL) && storageURLs == old(storageURLs)
      ensures hostingMinutes == old(hostingMinutes) && file == old(file)
      ensures openDialog == old(openDialog) && newOption == old(newOption)
    {
      loading := true;
      sent := None;
      if file.None? {
        // throws "No file was uploaded!" before any read
      } else if read.None? {
        // the read threw, so there is no buffer
      } else {
        var data := read.value;
        var uploadable := UploadableFile(data, |data|, file.value.mimeType);
        sent := Some(PublishRequest(storageURL, uploadable, hostingMinutes));
        if outcome.Published? {
          results := Some(outcome.uhrpURL);
        }
      }
      // finally
      loading := false;
      uploadProgress := 0;
    }
  }
}
