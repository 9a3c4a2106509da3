# File-sharing dApp client: coordination layer

This project models, in Dafny, the client-side coordination layer of a
file-sharing dApp. The layer sits between the user's wallet, the IPFS content
store (pinned through Pinata) and the file-sharing smart contract. It covers:

- the wallet session of the React context provider: `account`, `isConnected`,
  the contract binding and the `accountsChanged` handler (`session.dfy`);
- the binding's function signatures and record layout, and the external steps
  each handler takes (`ledger.dfy`);
- the upload form: check the form, pin, register the content id, wait, notify
  the parent, reset (`file_upload.dfy`);
- the dashboard: the owned and shared lists, the selection and the recipient
  field (`dashboard.dfy`). Its handlers share (check, estimate, pad the gas by
  20%, submit, check the receipt, refresh), delete (submit, wait, refresh),
  append optimistically after an upload, and reset on disconnect. It also
  picks a preview by file extension and builds the gateway URL;
- the shared-files view: load the list, filter out a hash after a delete
  (`shared_files.dfy`);
- the JavaScript behaviour these handlers depend on: thrown values,
  `includes`, `toLowerCase` (`js.dfy`).

Every external call is a parameter of the handler that makes it. This covers
the wallet, `listAccounts`, `estimateGas`, the contract calls, `tx.wait()`,
the Pinata POST and `ethers.utils.isAddress`. A call's parameter is a
`Reply<T>`: either the value it returned (`Ok`) or the JavaScript value it
threw (`Threw`). Each handler that calls out to the wallet, the contract or
the content store returns `steps`, the calls it made in order. Its `ensures`
say which calls happen before which, that no call follows one that threw,
and that every call up to the first throw is made. Stateful components are
classes whose fields are the React state variables. Each handler is a method
whose `ensures` give the new value of every field it may modify, including
the upload form's fields when the dashboard drives the form.

The model follows the code as written:

- Share checks only that a content id is selected. It does not check that the
  file is owned.
- Delete does no gas estimation.
- The upload's optimistic record always carries version 1.
- There is no "operation in progress" guard, no estimation-failed category
  and no stale-response token.
- Estimate failures are classified by the same chain as every other share
  failure.
- The session effect loads only the shared list, although its comment says
  it fetches both. So the owned list holds only optimistic appends until a
  delete refreshes it.

## Model

| member | source | states |
|---|---|---|
| Js.ContainsIff | file-sharing-dapp/client/src/components/Dashboard.tsx:169-171 | the substring test used by both error classifiers holds exactly when some window of the message equals the keyword |
| Js.ToLowerProperties | file-sharing-dapp/client/src/components/Dashboard.tsx:261 | lower-casing keeps the length, leaves no capital, changes nothing else and is idempotent |
| Ledger.EncodeAgreesWithAbi | file-sharing-dapp/client/src/context/Web3Context.tsx:37-43 | every call the client writes names a declared function, conforms to its parameter list (`uploadFile(fileHash, fileName, description)`, `shareFile(fileHash, recipient)`, `deleteFile(fileName, version)`, the two listings by `user`), is a transaction exactly when the function is not a view, and decodes by parameter name back to the intended call |
| Ledger.OneArgumentDeleteDoesNotConform | file-sharing-dapp/client/src/components/SharedFiles.tsx:22 | the shared-files view's `deleteFile(hash)` does not match the two-parameter declaration |
| Ledger.RecordTupleRoundTrip | file-sharing-dapp/client/src/context/Web3Context.tsx:38-39 | a file record survives the listing tuple layout `(fileName, fileHash, description, version, owner, isDeleted, sharedWith)`, and a conforming tuple comes from exactly one record |
| Session.Web3Session.constructor | file-sharing-dapp/client/src/context/Web3Context.tsx:21-24 | the session starts with no account, not connected, no contract binding |
| Session.Web3Session.InitWeb3 | file-sharing-dapp/client/src/context/Web3Context.tsx:27-58 | with a wallet, the accounts are listed and, unless that throws, the event handler is subscribed afterwards; a non-empty account list selects its first entry and connects, an empty one leaves account and flag alone; the contract is bound when an address is configured; no wallet or a throwing listing changes nothing |
| Session.Web3Session.AccountsChanged | file-sharing-dapp/client/src/context/Web3Context.tsx:54-57 | the account becomes the first entry or null, the flag is "list non-empty", so connected iff an account is present unless the first entry is the empty string |
| Session.Web3Session.ConnectWallet | file-sharing-dapp/client/src/context/Web3Context.tsx:63-77 | the permission request comes first and the listing only after it succeeds; failure never propagates: no wallet or a throwing request/listing leaves account and flag unchanged; success sets the flag unconditionally and the account to the first listed entry |
| FileUpload.UploadClassifierOrder | file-sharing-dapp/client/src/components/FileUpload.tsx:86-96 | rejected by the user exactly when the value is an object with code 4001, whatever the message; insufficient funds exactly when there is no such code and the guarded message mentions "insufficient funds"; a generic failure exactly in every other case, every non-object included |
| FileUpload.UploadForm.constructor | file-sharing-dapp/client/src/components/FileUpload.tsx:13-15 | the form starts with no file, empty name and empty description |
| FileUpload.UploadForm.ChooseFile | file-sharing-dapp/client/src/components/FileUpload.tsx:18-22 | the first chosen file replaces the form's file; an empty choice keeps it |
| FileUpload.UploadForm.SetFileName | file-sharing-dapp/client/src/components/FileUpload.tsx:117 | the name field holds what was typed |
| FileUpload.UploadForm.SetDescription | file-sharing-dapp/client/src/components/FileUpload.tsx:128 | the description field holds what was typed |
| FileUpload.UploadForm.HandleUpload | file-sharing-dapp/client/src/components/FileUpload.tsx:38-105 | missing file, name or description, or missing contract or account, return before any external call; the file is pinned first and exactly the pinned content id is registered with `(hash, fileName, description)`; past the checks the trace is pin, register, wait, cut exactly after the first call that throws; the parent is notified with `{fileName, pinned hash, description}` and the form cleared only after the wait resolves; on any failure the fields are kept, nobody is notified, and the first thrown value is classified |
| Dashboard.PadGas | file-sharing-dapp/client/src/components/Dashboard.tsx:144-147 | the gas limit is floor(estimate*120/100): at least the estimate, at most 6/5 of it |
| Dashboard.ShareClassifierOrder | file-sharing-dapp/client/src/components/Dashboard.tsx:164-173 | each category holds exactly under its condition: rejected by the user iff code 4001, whatever the message; insufficient funds iff no such code and the string message mentions it; reverted iff neither and the message mentions "revert"; generic iff a string message mentions neither keyword; the catch block itself throws iff the value is nullish or, without code 4001, its message is not a string |
| Dashboard.ShareAndUploadClassifiersAgree | file-sharing-dapp/client/src/components/Dashboard.tsx:166-173 | share and upload agree on rejection and insufficient funds; where share says reverted, generic, or throws, upload says generic (it has no revert category) |
| Dashboard.GuardedErrorsAreReported | file-sharing-dapp/client/src/components/FileUpload.tsx:7-9 | whenever the upload form's `isErrorWithMessage` guard holds, the share handler's catch block reports a category; for a value without code 4001 it reports one only when the guard holds |
| Dashboard.PlainMessageIsGeneric | file-sharing-dapp/client/src/components/Dashboard.tsx:166-173 | an `Error` whose message mentions neither keyword is a generic share failure |
| Dashboard.TransactionFailedIsGeneric | file-sharing-dapp/client/src/components/Dashboard.tsx:161-173 | the error the handler throws on a receipt status other than 1 is reported as a generic failure |
| Dashboard.LastSegmentIsLastSegment | file-sharing-dapp/client/src/components/Dashboard.tsx:261 | `split('.').pop()` yields a dot-free suffix of the name that is the whole name or follows a dot |
| Dashboard.LastSegmentUnique | file-sharing-dapp/client/src/components/Dashboard.tsx:261 | that suffix is unique |
| Dashboard.LastSegmentOfLower | file-sharing-dapp/client/src/components/Dashboard.tsx:261 | taking the last segment commutes with lower-casing |
| Dashboard.ExtensionShape | file-sharing-dapp/client/src/components/Dashboard.tsx:261 | the extension is non-empty, dot-free and lower-case, and a dot-less name yields the whole name lower-cased |
| Dashboard.PreviewIgnoresCase | file-sharing-dapp/client/src/components/Dashboard.tsx:259-293 | the preview of a name equals the preview of its lower-cased form |
| Dashboard.PreviewSourceIsGatewayUrl | file-sharing-dapp/client/src/components/Dashboard.tsx:260 | the preview source is the fixed gateway prefix followed by exactly the content id |
| Dashboard.PreviewExamples | file-sharing-dapp/client/src/components/Dashboard.tsx:259-293 | pdf, upper-case JPG, MP4 (with its `video/mp4` type), a double extension, a trailing dot ("unknown", unsupported) and a dot-less name dispatch as the extension table says |
| Dashboard.OptimisticRecord | file-sharing-dapp/client/src/components/Dashboard.tsx:437-438 | the appended record carries the uploaded name, hash and description, version 1, the current account as owner, not deleted, shared with nobody |
| Dashboard.DashboardState.constructor | file-sharing-dapp/client/src/components/Dashboard.tsx:65-68 | both lists, the recipient and the selection start empty |
| Dashboard.DashboardState.FetchFiles | file-sharing-dapp/client/src/components/Dashboard.tsx:74-93 | when connected with an account and a contract, the shared list is replaced by the ledger's listing; a failed read or missing session changes nothing |
| Dashboard.DashboardState.SelectFile | file-sharing-dapp/client/src/components/Dashboard.tsx:484 | the selection becomes the file's content id |
| Dashboard.DashboardState.SetShareAddress | file-sharing-dapp/client/src/components/Dashboard.tsx:556 | the recipient field holds what was typed |
| Dashboard.DashboardState.DisconnectWallet | file-sharing-dapp/client/src/components/Dashboard.tsx:105-119 | with a wallet present the permission request is fired and both lists become empty; without one no call is made and nothing changes |
| Dashboard.DashboardState.AppendUploaded | file-sharing-dapp/client/src/components/Dashboard.tsx:437-438 | exactly one optimistic record is appended after all earlier ones |
| Dashboard.DashboardState.ShareFile | file-sharing-dapp/client/src/components/Dashboard.tsx:122-182 | missing contract, selection or recipient, or an invalid address, return before any estimate or submission and change nothing; otherwise estimate, submit with `PadGas(estimate)`, wait, refresh, the trace cut exactly after the first throw or a bad status; only a status-1 receipt followed by a successful refresh replaces the shared list and clears recipient and selection; every other outcome leaves all three unchanged and classifies the first thrown value |
| Dashboard.DashboardState.DeleteFile | file-sharing-dapp/client/src/components/Dashboard.tsx:221-244 | a no-op without contract or account; otherwise submit `deleteFile(fileName, version)`, wait, then replace the owned list by `getUserFiles(account)`, the trace cut exactly after the first throw; any thrown value leaves the list untouched |
| Dashboard.DashboardState.UploadThroughForm | file-sharing-dapp/client/src/components/Dashboard.tsx:436-438 | the owned list grows by the optimistic record only when the form's upload completed after its wait, and is otherwise unchanged; the form makes the same calls as on its own: none when its checks fail, then pin, register exactly the pinned content id, wait, cut after the first throw; the form is cleared after a completed upload and keeps its fields otherwise |
| SharedFiles.WithoutRemovesExactlyHash | file-sharing-dapp/client/src/components/SharedFiles.tsx:24 | filtering removes every entry equal to the hash and keeps every other entry as often as it occurred |
| SharedFiles.WithoutDistributes | file-sharing-dapp/client/src/components/SharedFiles.tsx:24 | filtering a concatenation is the concatenation of the filtered parts, so remaining entries keep their relative order |
| SharedFiles.WithoutIdempotent | file-sharing-dapp/client/src/components/SharedFiles.tsx:24 | a list without the hash is unchanged, and filtering twice equals filtering once |
| SharedFiles.SharedFilesView.constructor | file-sharing-dapp/client/src/components/SharedFiles.tsx:8 | the view starts with an empty list |
| SharedFiles.SharedFilesView.FetchSharedFiles | file-sharing-dapp/client/src/components/SharedFiles.tsx:10-18 | only with a contract and an account, the list is replaced wholesale by `getSharedFiles(account)`; a throwing read propagates and leaves the list |
| SharedFiles.SharedFilesView.HandleDelete | file-sharing-dapp/client/src/components/SharedFiles.tsx:20-26 | a no-op without contract or account; otherwise the delete call, then the wait only if the call did not throw; after both resolve the hash is filtered out; if either throws, the list is not modified |

## Left out

- Presentation: pages, routing, theming, particles, animations, toasts and their texts. Outcomes are enum categories, not message strings.
- The Pinata upload helper in `utils/pinata.ts`, with its floating-point progress percentage. The form's own pin call is modelled as a `Reply<string>` input.
- Download (`handleDownloadFile`) and clipboard copy: blob, object-URL and clipboard plumbing.
- The dashboard's `previewFile` state: the preview modal's open/close (`handleViewFile` sets it, closing resets it to `null`). Only the preview computed for a file is modelled.
- `ethers.utils.isAddress`: it applies the EIP-55 checksum, which needs Keccak-256. It is an abstract predicate parameter.
- The contract's semantics: version increments, soft delete, share grants. Listings are opaque sequences supplied as inputs.
- Concurrency between handlers: each handler is one sequential run. The code has no in-flight guard or cancellation, so none is modelled.
- The user-management contract binding: it is outside this core.
- Dashboard.DashboardState.ShareFile: it takes the account as a string, with the empty string standing for `null`. Both are falsy and are only passed on, so nothing observable is lost.
- Dashboard.DashboardState.DeleteFile: it takes the account the same way, as a string with the empty string for `null`.
- SharedFiles.SharedFilesView.FetchSharedFiles: it takes the listing as content ids, the element type the view declares. At runtime the list holds the records the contract returns.
- SharedFiles.Without: it compares content ids by value and drops every equal entry. In the code, the delete button passes the clicked element of the list itself, so `h !== hash` compares by reference and drops exactly that one record.
- SharedFiles.SharedFilesView.HandleDelete: its outcome is an arbitrary success or failure input. In reality the one-argument `deleteFile(hash)` does not match the binding, which `Ledger.OneArgumentDeleteDoesNotConform` shows.
- Js.ToLowerProperties: lower-casing is modelled on ASCII letters only. `toLowerCase` also maps non-ASCII letters.
- Dashboard.ClassifyShareError: a message that is an array would reach `Array.prototype.includes` rather than throw. The model treats every non-string message as making the catch block throw.
- Numbers are integers: the only comparisons are with 4001 and with a receipt status of 1.
