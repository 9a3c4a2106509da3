/** The dashboard: it owns the "your files" and "shared with you" lists, the
    file selected for sharing and the recipient field, and implements sharing
    (check, estimate gas, pad it, submit, check the receipt, refresh the shared
    list), deletion (submit, wait, refresh the owned list), the optimistic
    append after an upload, the reset on disconnect, and the preview of a file
    by its extension through the content store's gateway. */
module Dashboard {
  import opened Js
  import opened Ledger
  import FileUpload

  // ---------------------------------------------------------------------------
  // Gas headroom

  /** `gasEstimate.mul(120).div(100)`: the estimate with 20% headroom, in the
      exact integer arithmetic of the big-number type (the division truncates,
      which for a non-negative estimate is the floor). */
  function PadGas(estimate: nat): (limit: nat)
    ensures estimate <= limit
    ensures 5 * limit <= 6 * estimate
    ensures 100 * limit <= 120 * estimate < 100 * limit + 100
  {
    estimate * 120 / 100
  }

  // ---------------------------------------------------------------------------
  // Share failures

  /** How a failed share is reported to the user. */
  datatype ShareError = RejectedByUser | InsufficientFunds | Reverted | ShareFailed

  /** The category the share handler's `catch` block picks for a thrown value:
      a wallet rejection (numeric code 4001) first, then a message mentioning
      insufficient funds, then one mentioning a revert, else a generic
      failure. The block reads `error.code` and calls `error.message.includes`
      without guards, so for a null or undefined value, or one whose message is
      not a string, the block itself throws and nothing is reported (`None`). */
  function ClassifyShareError(e: JsValue): (category: Option<ShareError>) {
    if IsNullish(e) then None
    else if Prop(e, "code") == Num(4001) then Some(RejectedByUser)
    else match Prop(e, "message")
      case Str(m) =>
        if Contains(m, "insufficient funds") then Some(InsufficientFunds)
        else if Contains(m, "revert") then Some(Reverted)
        else Some(ShareFailed)
      case _ => None
  }

  /** The value the share handler throws itself when the receipt's status is not 1. */
  const TransactionFailedError: JsValue := ErrorWithMessage("Transaction failed")

  /** The categories are tried in order: a rejection code wins over any
      message, "insufficient funds" wins over "revert", a string message that
      mentions neither is a generic failure, and the block throws exactly for
      a nullish value or, short of a rejection code, a non-string message. */
  lemma ShareClassifierOrder(e: JsValue)
    ensures ClassifyShareError(e) == Some(RejectedByUser) <==>
              !IsNullish(e) && Prop(e, "code") == Num(4001)
    ensures ClassifyShareError(e) == Some(InsufficientFunds) <==>
              e.Obj? && Prop(e, "code") != Num(4001) &&
              "message" in e.props && e.props["message"].Str? &&
              Contains(e.props["message"].s, "insufficient funds")
    ensures ClassifyShareError(e) == Some(Reverted) <==>
              e.Obj? && Prop(e, "code") != Num(4001) &&
              "message" in e.props && e.props["message"].Str? &&
              !Contains(e.props["message"].s, "insufficient funds") &&
              Contains(e.props["message"].s, "revert")
    ensures ClassifyShareError(e) == Some(ShareFailed) <==>
              !IsNullish(e) && Prop(e, "code") != Num(4001) && Prop(e, "message").Str? &&
              !Contains(Prop(e, "message").s, "insufficient funds") &&
              !Contains(Prop(e, "message").s, "revert")
    ensures ClassifyShareError(e) == None <==>
              IsNullish(e) || (Prop(e, "code") != Num(4001) && !Prop(e, "message").Str?)
  {
  }

  /** The upload form's type guard `isErrorWithMessage` marks exactly the
      values for which the share handler's `catch` block can read the message:
      whenever the guard holds the block reports a category, and for a value
      without the rejection code the block reports one only when the guard
      holds. */
  lemma GuardedErrorsAreReported(e: JsValue)
    ensures FileUpload.IsErrorWithMessage(e) ==> ClassifyShareError(e).Some?
    ensures IsNullish(e) || Prop(e, "code") != Num(4001) ==>
              (ClassifyShareError(e).Some? <==> FileUpload.IsErrorWithMessage(e))
  {
  }

  /** The share and upload handlers agree wherever the share handler reports
      at all, except that the upload handler has no revert category (it reports
      a generic failure instead); where the share handler's own `catch` block
      throws, the upload handler reports a generic failure. */
  lemma ShareAndUploadClassifiersAgree(e: JsValue)
    ensures ClassifyShareError(e) == Some(RejectedByUser) <==>
              FileUpload.ClassifyUploadError(e) == FileUpload.RejectedByUser
    ensures ClassifyShareError(e) == Some(InsufficientFunds) ==>
              FileUpload.ClassifyUploadError(e) == FileUpload.InsufficientFunds
    ensures ClassifyShareError(e) == Some(Reverted) || ClassifyShareError(e) == Some(ShareFailed) ||
            ClassifyShareError(e) == None ==>
              FileUpload.ClassifyUploadError(e) == FileUpload.UploadFailed
  {
  }

  /** An error object carrying only a message that mentions neither funds
      nor a revert is reported as a generic failure. */
  lemma PlainMessageIsGeneric(m: string)
    requires !Contains(m, "insufficient funds") && !Contains(m, "revert")
    ensures ClassifyShareError(ErrorWithMessage(m)) == Some(ShareFailed)
  {
    assert Prop(ErrorWithMessage(m), "code") == Undefined;
  }

  lemma NoFundsKeywordInTransactionFailed()
    ensures !Contains("Transaction failed", "insufficient funds")
  {
    assert 'u' !in "Transaction failed" && "insufficient funds"[3] == 'u';
    MissingCharNotContained("Transaction failed", "insufficient funds", 'u');
  }

  lemma NoRevertKeywordInTransactionFailed()
    ensures !Contains("Transaction failed", "revert")
  {
    assert 'v' !in "Transaction failed" && "revert"[2] == 'v';
    MissingCharNotContained("Transaction failed", "revert", 'v');
  }

  /** A receipt with a status other than 1 is reported as a generic failure:
      the handler's own error message mentions neither funds nor a revert. */
  lemma TransactionFailedIsGeneric()
    ensures ClassifyShareError(TransactionFailedError) == Some(ShareFailed)
  {
    NoFundsKeywordInTransactionFailed();
    NoRevertKeywordInTransactionFailed();
    PlainMessageIsGeneric("Transaction failed");
  }

  // ---------------------------------------------------------------------------
  // Preview by extension

  /** `name.split('.').pop()`: the text after the last dot, or the whole name
      when it has no dot. */
  function LastSegment(s: string): (r: string)
    decreases |s|
  {
    if |s| == 0 || s[|s| - 1] == '.' then "" else LastSegment(s[..|s| - 1]) + [s[|s| - 1]]
  }

  /** `r` is the part of `s` after its last dot: a dot-free suffix of `s` that
      is either all of `s` or preceded by a dot. */
  predicate IsLastSegment(s: string, r: string) {
    |r| <= |s| && r == s[|s| - |r|..] && '.' !in r && (|r| == |s| || s[|s| - |r| - 1] == '.')
  }

  lemma {:induction false} LastSegmentIsLastSegment(s: string)
    ensures IsLastSegment(s, LastSegment(s))
  {
    if |s| == 0 || s[|s| - 1] == '.' {
    } else {
      var p := s[..|s| - 1];
      LastSegmentIsLastSegment(p);
      var q := LastSegment(p);
      assert s[|s| - |q| - 1..] == p[|p| - |q|..] + [s[|s| - 1]];
    }
  }

  /** There is exactly one such part, and `LastSegment` computes it. */
  lemma LastSegmentUnique(s: string, r: string)
    requires IsLastSegment(s, r)
    ensures r == LastSegment(s)
  {
    LastSegmentIsLastSegment(s);
  }

  /** The extension `renderFilePreview` dispatches on: the last segment,
      lower-cased, or "unknown" when that is empty. */
  function Extension(fileName: string): (ext: string) {
    var e := ToLower(LastSegment(fileName));
    if e == "" then "unknown" else e
  }

  datatype PreviewKind = ImagePreview | PdfPreview | TextPreview | VideoPreview | AudioPreview | NoPreview

  function PreviewKindOf(ext: string): (kind: PreviewKind) {
    if ext in ["jpg", "jpeg", "png", "gif"] then ImagePreview
    else if ext == "pdf" then PdfPreview
    else if ext in ["txt", "md"] then TextPreview
    else if ext in ["mp4", "webm"] then VideoPreview
    else if ext in ["mp3", "wav"] then AudioPreview
    else NoPreview
  }

  const GatewayPrefix: string := "https://gateway.pinata.cloud/ipfs/"

  /** The content store's gateway address of a content id. */
  function GatewayUrl(fileHash: string): (url: string) {
    GatewayPrefix + fileHash
  }

  /** What `renderFilePreview` shows: the kind of viewer, its source address,
      the media type given to a video or audio element, and the extension. */
  datatype Preview = Preview(kind: PreviewKind, src: string, mediaType: Option<string>, extension: string)

  function RenderFilePreview(fileName: string, fileHash: string): (p: Preview) {
    var ext := Extension(fileName);
    var kind := PreviewKindOf(ext);
    var mediaType :=
      if kind == VideoPreview then Some("video/" + ext)
      else if kind == AudioPreview then Some("audio/" + ext)
      else None;
    Preview(kind, GatewayUrl(fileHash), mediaType, ext)
  }

  /** Lower-casing a name lower-cases its last segment. */
  lemma {:induction false} LastSegmentOfLower(s: string)
    ensures LastSegment(ToLower(s)) == ToLower(LastSegment(s))
    decreases |s|
  {
    if |s| > 0 && s[|s| - 1] != '.' {
      var p := s[..|s| - 1];
      assert s == p + [s[|s| - 1]];
      ToLowerSnoc(p, s[|s| - 1]);
      assert ToLower(s)[..|s| - 1] == ToLower(p);
      LastSegmentOfLower(p);
      ToLowerSnoc(LastSegment(p), s[|s| - 1]);
    }
  }

  /** The extension is a non-empty, dot-free, lower-case word, and for a name
      without a dot it is the whole name lower-cased. */
  lemma ExtensionShape(fileName: string)
    ensures Extension(fileName) != "" && '.' !in Extension(fileName)
    ensures forall i :: 0 <= i < |Extension(fileName)| ==> !IsUpper(Extension(fileName)[i])
    ensures '.' !in fileName && fileName != "" ==> Extension(fileName) == ToLower(fileName)
  {
    var seg := LastSegment(fileName);
    LastSegmentIsLastSegment(fileName);
    ToLowerProperties(seg);
    assert forall i :: 0 <= i < |seg| ==> ToLower(seg)[i] != '.';
    if '.' !in fileName && fileName != "" {
      LastSegmentUnique(fileName, fileName);
    }
  }

  /** The preview does not depend on the case of the name. */
  lemma PreviewIgnoresCase(fileName: string, fileHash: string)
    ensures RenderFilePreview(ToLower(fileName), fileHash) == RenderFilePreview(fileName, fileHash)
  {
    LastSegmentOfLower(fileName);
    ToLowerProperties(LastSegment(fileName));
  }

  /** The preview shows the gateway address of exactly the file's content id. */
  lemma PreviewSourceIsGatewayUrl(fileName: string, fileHash: string)
    ensures StartsWith(RenderFilePreview(fileName, fileHash).src, GatewayPrefix)
    ensures RenderFilePreview(fileName, fileHash).src[|GatewayPrefix|..] == fileHash
  {
  }

  /** A few names, dispatched: the extension is matched after lower-casing,
      only the last segment counts, a trailing dot gives "unknown", and a
      name without a dot is its own extension. */
  lemma PreviewExamples()
    ensures RenderFilePreview("report.pdf", "cid1").kind == PdfPreview
    ensures RenderFilePreview("Photo.JPG", "cid1").kind == ImagePreview
    ensures RenderFilePreview("clip.MP4", "cid1") ==
              Preview(VideoPreview, GatewayUrl("cid1"), Some("video/mp4"), "mp4")
    ensures RenderFilePreview("notes.tar.md", "cid1").kind == TextPreview
    ensures RenderFilePreview("archive.", "cid1") == Preview(NoPreview, GatewayUrl("cid1"), None, "unknown")
    ensures Extension("notes") == "notes"
  {
    LastSegmentUnique("report.pdf", "pdf");
    assert ToLower("pdf") == "pdf";
    LastSegmentUnique("Photo.JPG", "JPG");
    assert ToLower("JPG") == "jpg";
    LastSegmentUnique("clip.MP4", "MP4");
    assert ToLower("MP4") == "mp4";
    assert "video/" + "mp4" == "video/mp4";
    LastSegmentUnique("notes.tar.md", "md");
    assert ToLower("md") == "md";
    LastSegmentUnique("archive.", "");
    assert ToLower("") == "";
    LastSegmentUnique("notes", "notes");
    assert ToLower("notes") == "notes";
  }

  // ---------------------------------------------------------------------------
  // The dashboard's state and handlers

  /** What `handleShareFile` did. */
  datatype ShareOutcome =
    | MissingInput       // no contract, no selected file or no recipient
    | InvalidAddress     // the recipient is not an address
    | Shared
    | Failed(error: JsValue, category: Option<ShareError>)

  /** What `handleDeleteFile` did. */
  datatype DeleteOutcome = NoOp | Deleted | DeleteFailed(error: JsValue)

  /** The record appended to the owned list when the upload form reports a
      registered file. */
  function OptimisticRecord(file: FileUpload.UploadedFile, owner: string): (r: FileRecord)
    ensures r.fileName == file.fileName && r.fileHash == file.fileHash && r.description == file.description
    ensures r.version == 1 && r.owner == owner && !r.isDeleted && r.sharedWith == []
  {
    FileRecord(file.fileName, file.fileHash, file.description, 1, owner, false, [])
  }

  /** The dashboard's state. The session values it reads (whether the contract
      binding exists, the account, the connection flag) are parameters of each
      handler; a null account is written as the empty string, which the
      handlers treat alike (both are falsy). */
  class DashboardState {
    var userFiles: seq<FileRecord>
    var sharedFiles: seq<FileRecord>
    var shareAddress: string
    var selectedFileHash: string

    constructor()
      ensures userFiles == [] && sharedFiles == [] && shareAddress == "" && selectedFileHash == ""
    {
      userFiles, sharedFiles := [], [];
      shareAddress, selectedFileHash := "", "";
    }

    /** The effect run when the session changes: with a connection, an account
        and a contract, the shared list is replaced by the ledger's; a failed
        read changes nothing. */
    method FetchFiles(isConnected: bool, hasContract: bool, account: string, listing: Reply<seq<FileRecord>>)
      returns (steps: seq<Step>)
      modifies this`sharedFiles
      ensures !isConnected || account == "" || !hasContract ==> steps == [] && sharedFiles == old(sharedFiles)
      ensures isConnected && account != "" && hasContract ==>
                steps == [Query(Encode(GetSharedFiles(account)))] &&
                sharedFiles == (if listing.Ok? then listing.value else old(sharedFiles))
    {
      steps := [];
      if isConnected && account != "" && hasContract {
        steps := [Query(Encode(GetSharedFiles(account)))];
        if listing.Ok? {
          sharedFiles := listing.value;
        }
      }
    }

    /** The "Share" button of an owned file. */
    method SelectFile(fileHash: string)
      modifies this`selectedFileHash
      ensures selectedFileHash == fileHash
    {
      selectedFileHash := fileHash;
    }

    /** The recipient input. */
    method SetShareAddress(address: string)
      modifies this`shareAddress
      ensures shareAddress == address
    {
      shareAddress := address;
    }

    /** `handleDisconnectWallet`: with a wallet present it fires a permission
        request (not awaited, so what it returns or throws plays no part) and
        empties both lists; navigation is not modelled. Without a wallet
        nothing happens. */
    method DisconnectWallet(hasWallet: bool) returns (steps: seq<Step>)
      modifies this`userFiles, this`sharedFiles
      ensures steps == (if hasWallet then [RequestAccounts] else [])
      ensures hasWallet ==> userFiles == [] && sharedFiles == []
      ensures !hasWallet ==> userFiles == old(userFiles) && sharedFiles == old(sharedFiles)
    {
      steps := [];
      if hasWallet {
        steps := [RequestAccounts];
        userFiles, sharedFiles := [], [];
      }
    }

    /** The optimistic append made by the upload form's success callback:
        exactly one record, version 1, owned by the current account, not
        deleted and shared with nobody, after all earlier records. */
    method AppendUploaded(file: FileUpload.UploadedFile, account: string)
      modifies this`userFiles
      ensures userFiles == old(userFiles) + [OptimisticRecord(file, account)]
    {
      userFiles := userFiles + [OptimisticRecord(file, account)];
    }

    /** `handleShareFile`. `isAddress` is the address check of the Ethereum
        library; `estimate`, `sent`, `receipt` (its status) and `listing` are
        what the gas estimate, the submission, the wait and the refresh of the
        shared list returned or threw. */
    method ShareFile(hasContract: bool, account: string, isAddress: string -> bool,
                     estimate: Reply<nat>, sent: Reply<()>, receipt: Reply<int>,
                     listing: Reply<seq<FileRecord>>)
      returns (steps: seq<Step>, outcome: ShareOutcome)
      modifies this`sharedFiles, this`shareAddress, this`selectedFileHash
      // the checks come before any external call and change nothing
      ensures !hasContract || old(selectedFileHash) == "" || old(shareAddress) == "" ==>
                outcome == MissingInput && steps == []
      ensures hasContract && old(selectedFileHash) != "" && old(shareAddress) != "" &&
              !isAddress(old(shareAddress)) ==>
                outcome == InvalidAddress && steps == []
      // otherwise: estimate, then submit with the padded limit, then wait, then refresh
      ensures outcome.Failed? || outcome == Shared ==>
                1 <= |steps| <= 4 &&
                steps[0] == EstimateGas(Encode(LedgerCall.ShareFile(old(selectedFileHash), old(shareAddress))))
      ensures |steps| >= 2 ==>
                estimate.Ok? &&
                steps[1] == Send(Encode(LedgerCall.ShareFile(old(selectedFileHash), old(shareAddress))),
                                 Some(PadGas(estimate.value)))
      ensures |steps| >= 3 ==> sent.Ok? && steps[2] == AwaitReceipt
      ensures |steps| == 4 ==>
                receipt == Ok(1) && steps[3] == Query(Encode(GetSharedFiles(account)))
      // past the checks every call is made until one throws or the status is bad
      ensures hasContract && old(selectedFileHash) != "" && old(shareAddress) != "" &&
              isAddress(old(shareAddress)) ==>
                (outcome == Shared || outcome.Failed?) &&
                |steps| == (if estimate.Threw? then 1 else if sent.Threw? then 2
                            else if receipt.Threw? || receipt.value != 1 then 3 else 4)
      // success replaces the shared list and clears the form; nothing else ever changes anything
      ensures outcome == Shared <==>
                hasContract && old(selectedFileHash) != "" && old(shareAddress) != "" &&
                isAddress(old(shareAddress)) &&
                estimate.Ok? && sent.Ok? && receipt == Ok(1) && listing.Ok?
      ensures outcome == Shared ==>
                |steps| == 4 && sharedFiles == listing.value && shareAddress == "" && selectedFileHash == ""
      ensures outcome != Shared ==>
                sharedFiles == old(sharedFiles) && shareAddress == old(shareAddress) &&
                selectedFileHash == old(selectedFileHash)
      // a failure is the first thrown value (or the handler's own on a bad status), classified
      ensures outcome.Failed? ==> outcome.category == ClassifyShareError(outcome.error)
      ensures outcome.Failed? ==>
                outcome.error == (if estimate.Threw? then estimate.error
                                  else if sent.Threw? then sent.error
                                  else if receipt.Threw? then receipt.error
                                  else if receipt.value != 1 then TransactionFailedError
                                  else listing.error)
    {
      steps := [];
      if !hasContract || selectedFileHash == "" || shareAddress == "" {
        return steps, MissingInput;
      }
      if !isAddress(shareAddress) {
        return steps, InvalidAddress;
      }
      var call := Encode(LedgerCall.ShareFile(selectedFileHash, shareAddress));
      steps := steps + [EstimateGas(call)];
      if estimate.Threw? {
        return steps, Failed(estimate.error, ClassifyShareError(estimate.error));
      }
      steps := steps + [Send(call, Some(PadGas(estimate.value)))];
      if sent.Threw? {
        return steps, Failed(sent.error, ClassifyShareError(sent.error));
      }
      steps := steps + [AwaitReceipt];
      if receipt.Threw? {
        return steps, Failed(receipt.error, ClassifyShareError(receipt.error));
      }
      if receipt.value != 1 {
        return steps, Failed(TransactionFailedError, ClassifyShareError(TransactionFailedError));
      }
      steps := steps + [Query(Encode(GetSharedFiles(account)))];
      if listing.Threw? {
        return steps, Failed(listing.error, ClassifyShareError(listing.error));
      }
      sharedFiles := listing.value;
      shareAddress := "";
      selectedFileHash := "";
      outcome := Shared;
    }

    /** `handleDeleteFile`: without a contract or an account nothing happens;
        otherwise the deletion is submitted and awaited, and only then is the
        owned list replaced by the ledger's. Any thrown value leaves the list
        alone. */
    method DeleteFile(hasContract: bool, account: string, fileName: string, version: nat,
                      sent: Reply<()>, waited: Reply<()>, listing: Reply<seq<FileRecord>>)
      returns (steps: seq<Step>, outcome: DeleteOutcome)
      modifies this`userFiles
      ensures outcome == NoOp <==> !hasContract || account == ""
      ensures outcome == NoOp ==> steps == []
      ensures outcome != NoOp ==>
                1 <= |steps| <= 3 && steps[0] == Send(Encode(LedgerCall.DeleteFile(fileName, version)), None)
      ensures |steps| >= 2 ==> sent.Ok? && steps[1] == AwaitReceipt
      ensures |steps| == 3 ==> waited.Ok? && steps[2] == Query(Encode(GetUserFiles(account)))
      ensures outcome != NoOp ==> |steps| == (if sent.Threw? then 1 else if waited.Threw? then 2 else 3)
      ensures outcome == Deleted <==> hasContract && account != "" && sent.Ok? && waited.Ok? && listing.Ok?
      ensures outcome == Deleted ==> |steps| == 3 && userFiles == listing.value
      ensures outcome != Deleted ==> userFiles == old(userFiles)
      ensures outcome.DeleteFailed? ==>
                outcome.error == (if sent.Threw? then sent.error
                                  else if waited.Threw? then waited.error else listing.error)
    {
      steps := [];
      if !hasContract || account == "" {
        return steps, NoOp;
      }
      steps := steps + [Send(Encode(LedgerCall.DeleteFile(fileName, version)), None)];
      if sent.Threw? {
        return steps, DeleteFailed(sent.error);
      }
      steps := steps + [AwaitReceipt];
      if waited.Threw? {
        return steps, DeleteFailed(waited.error);
      }
      steps := steps + [Query(Encode(GetUserFiles(account)))];
      if listing.Threw? {
        return steps, DeleteFailed(listing.error);
      }
      userFiles := listing.value;
      outcome := Deleted;
    }

    /** The upload form wired to the dashboard: the form's handler runs, and
        the owned list grows by the optimistic record only when the form
        reports a registered file, that is, after the register transaction's
        wait has resolved. */
    method UploadThroughForm(form: FileUpload.UploadForm, hasContract: bool, account: string,
                             pinned: Reply<string>, sent: Reply<()>, waited: Reply<()>)
      returns (steps: seq<Step>, outcome: FileUpload.UploadOutcome)
      modifies this`userFiles, form
      ensures outcome == FileUpload.Uploaded ==>
                pinned.Ok? && |steps| == 3 && steps[2] == AwaitReceipt &&
                userFiles == old(userFiles) +
                  [OptimisticRecord(FileUpload.UploadedFile(old(form.fileName), pinned.value,
                                                            old(form.description)), account)]
      ensures outcome != FileUpload.Uploaded ==> userFiles == old(userFiles)
      // the form's own contract: the same calls, and the form cleared after a
      // registered upload and kept otherwise
      ensures old(form.file).None? || old(form.fileName) == "" || old(form.description) == "" ||
              !hasContract || account == "" ==>
                steps == []
      ensures |steps| >= 2 ==>
                pinned.Ok? &&
                steps[1] == Send(Encode(UploadFile(pinned.value, old(form.fileName), old(form.description))), None)
      ensures |steps| <= 3 && (|steps| == 3 ==> steps[2] == AwaitReceipt)
      ensures old(form.file).Some? && old(form.fileName) != "" && old(form.description) != "" &&
              hasContract && account != "" ==>
                |steps| == (if pinned.Threw? then 1 else if sent.Threw? then 2 else 3) &&
                steps[0] == Pin(old(form.file).value)
      ensures outcome == FileUpload.Uploaded <==>
                old(form.file).Some? && old(form.fileName) != "" && old(form.description) != "" &&
                hasContract && account != "" && pinned.Ok? && sent.Ok? && waited.Ok?
      ensures outcome == FileUpload.Uploaded ==>
                form.file == None && form.fileName == "" && form.description == ""
      ensures outcome != FileUpload.Uploaded ==>
                form.file == old(form.file) && form.fileName == old(form.fileName) &&
                form.description == old(form.description)
    {
      var notified;
      steps, outcome, notified := form.HandleUpload(hasContract, account, pinned, sent, waited);
      if notified.Some? {
        AppendUploaded(notified.value, account);
      }
    }
  }
}
