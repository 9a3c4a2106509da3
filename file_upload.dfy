/** The upload form: a chosen file, a name and a description. Uploading
    checks the form and the session, pins the file to the content store,
    registers the returned content id on the ledger, waits for the
    transaction, and only then hands the new file to its parent and clears the
    form. The content store's HTTP call, the contract call and the wait are
    parameters: what each returned or threw. */
module FileUpload {
  import opened Js
  import opened Ledger

  /** What the form hands to its parent once the file is registered. */
  datatype UploadedFile = UploadedFile(fileName: string, fileHash: string, description: string)

  /** How a failed upload is reported to the user. */
  datatype UploadError = RejectedByUser | InsufficientFunds | UploadFailed

  /** What an upload attempt did. */
  datatype UploadOutcome =
    | MissingData              // no file, name or description
    | NotConnected             // no contract binding or no account
    | Uploaded
    | Failed(error: JsValue, category: UploadError)

  /** The type guard `isErrorWithMessage`: a truthy object whose `message`
      property is a string. */
  predicate IsErrorWithMessage(e: JsValue) {
    e.Obj? && "message" in e.props && e.props["message"].Str?
  }

  /** The category the upload handler reports for a thrown value: a wallet
      rejection (numeric code 4001) first, then an "insufficient funds"
      message, and a generic failure for everything else. The handler guards
      every property read, so no thrown value makes it throw in turn. */
  function ClassifyUploadError(e: JsValue): (category: UploadError) {
    if e.Obj? && "code" in e.props && e.props["code"] == Num(4001) then RejectedByUser
    else if IsErrorWithMessage(e) && Contains(e.props["message"].s, "insufficient funds") then InsufficientFunds
    else UploadFailed
  }

  /** The classifier's order: a rejection code decides whatever the message
      says; a message mentioning insufficient funds decides otherwise; and
      anything that is neither (including every value that is not an object)
      is a generic failure. */
  lemma UploadClassifierOrder(e: JsValue)
    ensures ClassifyUploadError(e) == RejectedByUser <==>
              e.Obj? && "code" in e.props && e.props["code"] == Num(4001)
    ensures ClassifyUploadError(e) == InsufficientFunds <==>
              !(e.Obj? && "code" in e.props && e.props["code"] == Num(4001)) &&
              IsErrorWithMessage(e) && Contains(e.props["message"].s, "insufficient funds")
    ensures ClassifyUploadError(e) == UploadFailed <==>
              !(e.Obj? && "code" in e.props && e.props["code"] == Num(4001)) &&
              !(IsErrorWithMessage(e) && Contains(e.props["message"].s, "insufficient funds"))
    ensures !e.Obj? ==> ClassifyUploadError(e) == UploadFailed
  {
  }

  class UploadForm {
    var file: Option<seq<bv8>>
    var fileName: string
    var description: string

    constructor()
      ensures file == None && fileName == "" && description == ""
    {
      file := None;
      fileName := "";
      description := "";
    }

    /** The file input's change handler: the first chosen file, if any. */
    method ChooseFile(chosen: seq<seq<bv8>>)
      modifies this`file
      ensures file == if |chosen| > 0 then Some(chosen[0]) else old(file)
    {
      if |chosen| > 0 {
        file := Some(chosen[0]);
      }
    }

    method SetFileName(name: string)
      modifies this`fileName
      ensures fileName == name
    {
      fileName := name;
    }

    method SetDescription(text: string)
      modifies this`description
      ensures description == text
    {
      description := text;
    }

    /** `handleUpload`. `hasContract` and `account` come from the session
        (the empty string stands for a null account: both are falsy and the
        handler only tests it); `pinned` is what the content store returned
        (the content id) or threw, `sent` what submitting `uploadFile` did,
        `waited` what waiting for its receipt did. `steps` are the external
        calls made, in order; `notified` is the value passed to the parent's
        success callback, if it was called. */
    method HandleUpload(hasContract: bool, account: string,
                        pinned: Reply<string>, sent: Reply<()>, waited: Reply<()>)
      returns (steps: seq<Step>, outcome: UploadOutcome, notified: Option<UploadedFile>)
      modifies this
      // the checks come before any external call
      ensures old(file).None? || old(fileName) == "" || old(description) == "" ==>
                outcome == MissingData && steps == []
      ensures old(file).Some? && old(fileName) != "" && old(description) != "" &&
              (!hasContract || account == "") ==>
                outcome == NotConnected && steps == []
      // pin first, then register exactly the pinned content id, then wait
      ensures steps != [] ==> old(file).Some? && steps[0] == Pin(old(file).value)
      ensures |steps| >= 2 ==>
                pinned.Ok? &&
                steps[1] == Send(Encode(UploadFile(pinned.value, old(fileName), old(description))), None)
      ensures |steps| <= 3 && (|steps| == 3 ==> steps[2] == AwaitReceipt)
      ensures pinned.Threw? ==> |steps| <= 1
      // past the checks every call is made until one throws
      ensures old(file).Some? && old(fileName) != "" && old(description) != "" &&
              hasContract && account != "" ==>
                (outcome == Uploaded || outcome.Failed?) &&
                |steps| == (if pinned.Threw? then 1 else if sent.Threw? then 2 else 3)
      // the parent hears of the file only after the wait, and only then is the form cleared
      ensures outcome == Uploaded <==>
                old(file).Some? && old(fileName) != "" && old(description) != "" &&
                hasContract && account != "" && pinned.Ok? && sent.Ok? && waited.Ok?
      ensures outcome == Uploaded ==>
                |steps| == 3 &&
                notified == Some(UploadedFile(old(fileName), pinned.value, old(description))) &&
                file == None && fileName == "" && description == ""
      ensures outcome != Uploaded ==>
                notified == None &&
                file == old(file) && fileName == old(fileName) && description == old(description)
      // a failure is the first thrown value, classified
      ensures outcome.Failed? ==> outcome.category == ClassifyUploadError(outcome.error)
      ensures outcome.Failed? ==>
                outcome.error == (if pinned.Threw? then pinned.error
                                  else if sent.Threw? then sent.error else waited.error)
    {
      steps, notified := [], None;
      if file.None? || fileName == "" || description == "" {
        return steps, MissingData, notified;
      }
      if !hasContract || account == "" {
        return steps, NotConnected, notified;
      }
      steps := steps + [Pin(file.value)];
      if pinned.Threw? {
        return steps, Failed(pinned.error, ClassifyUploadError(pinned.error)), notified;
      }
      var ipfsHash := pinned.value;
      steps := steps + [Send(Encode(UploadFile(ipfsHash, fileName, description)), None)];
      if sent.Threw? {
        return steps, Failed(sent.error, ClassifyUploadError(sent.error)), notified;
      }
      steps := steps + [AwaitReceipt];
      if waited.Threw? {
        return steps, Failed(waited.error, ClassifyUploadError(waited.error)), notified;
      }
      notified := Some(UploadedFile(fileName, ipfsHash, description));
      file, fileName, description := None, "", "";
      outcome := Uploaded;
    }
  }
}
