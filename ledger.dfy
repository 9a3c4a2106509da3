/** The binding to the file-sharing contract that the session context builds
    (its human-readable ABI), the record layout the two listing calls return,
    and the steps a handler takes against the wallet, the contract and the
    content store. Contract semantics (versioning, soft delete, grants) live on
    the ledger and are not part of this model: listings are opaque values. */
module Ledger {
  import opened Js

  /** One element of the tuple array returned by `getUserFiles` and
      `getSharedFiles`, with its components in declaration order. */
  datatype FileRecord = FileRecord(
    fileName: string,
    fileHash: string,
    description: string,
    version: nat,
    owner: string,
    isDeleted: bool,
    sharedWith: seq<string>)

  datatype AbiType = TString | TAddress | TUint256 | TBool | TAddressArray

  datatype AbiParam = AbiParam(name: string, ty: AbiType)

  datatype AbiFunction = AbiFunction(name: string, params: seq<AbiParam>, isView: bool)

  /** A positional argument or tuple component as the contract sees it. */
  datatype AbiValue =
    | VString(s: string)
    | VAddress(a: string)
    | VUint(n: nat)
    | VBool(b: bool)
    | VAddressArray(addrs: seq<string>)

  /** A call as the client code writes it: a function name and positional
      arguments. */
  datatype Invocation = Invocation(name: string, args: seq<AbiValue>)

  /** The contract operations, with their arguments named. */
  datatype LedgerCall =
    | GetUserFiles(user: string)
    | GetSharedFiles(user: string)
    | ShareFile(fileHash: string, recipient: string)
    | DeleteFile(fileName: string, version: nat)
    | UploadFile(fileHash: string, fileName: string, description: string)

  /** 2^256, the first value a `uint256` cannot hold. */
  const Uint256Bound: nat := 0x1_0000_0000_0000_0000_0000_0000_0000_0000_0000_0000_0000_0000_0000_0000_0000_0000

  /** The tuple layout of a file record in the listing calls' return type. */
  const RecordLayout: seq<AbiParam> := [
    AbiParam("fileName", TString),
    AbiParam("fileHash", TString),
    AbiParam("description", TString),
    AbiParam("version", TUint256),
    AbiParam("owner", TAddress),
    AbiParam("isDeleted", TBool),
    AbiParam("sharedWith", TAddressArray)
  ]

  /** The file-sharing contract's functions, in the order the binding declares them. */
  const FileSharingAbi: seq<AbiFunction> := [
    AbiFunction("getUserFiles", [AbiParam("user", TAddress)], true),
    AbiFunction("getSharedFiles", [AbiParam("user", TAddress)], true),
    AbiFunction("shareFile", [AbiParam("fileHash", TString), AbiParam("recipient", TAddress)], false),
    AbiFunction("deleteFile", [AbiParam("fileName", TString), AbiParam("version", TUint256)], false),
    AbiFunction("uploadFile", [AbiParam("fileHash", TString), AbiParam("fileName", TString), AbiParam("description", TString)], false)
  ]

  predicate HasType(v: AbiValue, t: AbiType) {
    match t
    case TString => v.VString?
    case TAddress => v.VAddress?
    case TUint256 => v.VUint? && v.n < Uint256Bound
    case TBool => v.VBool?
    case TAddressArray => v.VAddressArray?
  }

  /** The arguments match the declared parameters in number and type. */
  predicate Conforms(args: seq<AbiValue>, params: seq<AbiParam>) {
    |args| == |params| && forall i :: 0 <= i < |args| ==> HasType(args[i], params[i].ty)
  }

  /** The position of the first entry equal to `name`: how the binding finds a
      function among its declarations and a parameter among a function's. */
  function IndexOf(names: seq<string>, name: string): (r: Option<nat>)
    ensures r.Some? ==> r.value < |names| && names[r.value] == name
    ensures r.None? ==> name !in names
  {
    if names == [] then None
    else if names[0] == name then Some(0)
    else match IndexOf(names[1..], name)
      case None => None
      case Some(k) => Some(k + 1)
  }

  function ParamNames(params: seq<AbiParam>): (names: seq<string>) {
    seq(|params|, i requires 0 <= i < |params| => params[i].name)
  }

  function FunctionNames(abi: seq<AbiFunction>): (names: seq<string>) {
    seq(|abi|, i requires 0 <= i < |abi| => abi[i].name)
  }

  /** The argument passed for the parameter called `name`, found through the
      declaration's parameter order. */
  function ArgNamed(args: seq<AbiValue>, params: seq<AbiParam>, name: string): (r: Option<AbiValue>) {
    match IndexOf(ParamNames(params), name)
    case None => None
    case Some(k) => if k < |args| then Some(args[k]) else None
  }

  /** The invocation the client code writes for a call. */
  function Encode(c: LedgerCall): (inv: Invocation) {
    match c
    case GetUserFiles(user) => Invocation("getUserFiles", [VAddress(user)])
    case GetSharedFiles(user) => Invocation("getSharedFiles", [VAddress(user)])
    case ShareFile(fileHash, recipient) => Invocation("shareFile", [VString(fileHash), VAddress(recipient)])
    case DeleteFile(fileName, version) => Invocation("deleteFile", [VString(fileName), VUint(version)])
    case UploadFile(fileHash, fileName, description) =>
      Invocation("uploadFile", [VString(fileHash), VString(fileName), VString(description)])
  }

  /** The call an invocation denotes according to the binding: the function
      is looked up by name, the arguments must conform to its declaration, and
      each argument is then read back by its parameter's name. The ABI encoder
      itself is positional; reading by name is this model's way of checking
      that a positional argument list puts every value in the slot of the
      parameter it is meant for. */
  function Decode(inv: Invocation): (r: Option<LedgerCall>) {
    match IndexOf(FunctionNames(FileSharingAbi), inv.name)
    case None => None
    case Some(k) =>
      var params := FileSharingAbi[k].params;
      if !Conforms(inv.args, params) then None
      else if k == 0 then
        match ArgNamed(inv.args, params, "user")
        case Some(VAddress(u)) => Some(GetUserFiles(u))
        case _ => None
      else if k == 1 then
        match ArgNamed(inv.args, params, "user")
        case Some(VAddress(u)) => Some(GetSharedFiles(u))
        case _ => None
      else if k == 2 then
        match (ArgNamed(inv.args, params, "fileHash"), ArgNamed(inv.args, params, "recipient"))
        case (Some(VString(h)), Some(VAddress(r))) => Some(ShareFile(h, r))
        case _ => None
      else if k == 3 then
        match (ArgNamed(inv.args, params, "fileName"), ArgNamed(inv.args, params, "version"))
        case (Some(VString(n)), Some(VUint(v))) => Some(DeleteFile(n, v))
        case _ => None
      else
        match (ArgNamed(inv.args, params, "fileHash"), ArgNamed(inv.args, params, "fileName"),
               ArgNamed(inv.args, params, "description"))
        case (Some(VString(h)), Some(VString(n)), Some(VString(d))) => Some(UploadFile(h, n, d))
        case _ => None
  }

  /** The version a call carries fits the contract's `uint256`. */
  predicate InRange(c: LedgerCall) {
    c.DeleteFile? ==> c.version < Uint256Bound
  }

  /** The calls that change ledger state (and so are sent as transactions). */
  predicate IsMutation(c: LedgerCall) {
    c.ShareFile? || c.DeleteFile? || c.UploadFile?
  }

  /** An entry preceded by no equal one is found at its own position. */
  lemma {:induction false} IndexOfAt(names: seq<string>, k: nat)
    requires k < |names|
    requires forall j :: 0 <= j < k ==> names[j] != names[k]
    ensures IndexOf(names, names[k]) == Some(k)
  {
    if k > 0 {
      IndexOfAt(names[1..], k - 1);
    }
  }

  lemma DeclarationAt(k: nat)
    requires k < |FileSharingAbi|
    ensures IndexOf(FunctionNames(FileSharingAbi), FileSharingAbi[k].name) == Some(k)
  {
    IndexOfAt(FunctionNames(FileSharingAbi), k);
  }

  /** The binding's entry for the function a call names. */
  function DeclarationIndex(c: LedgerCall): (k: nat)
    ensures k < |FileSharingAbi|
  {
    match c
    case GetUserFiles(_) => 0
    case GetSharedFiles(_) => 1
    case ShareFile(_, _) => 2
    case DeleteFile(_, _) => 3
    case UploadFile(_, _, _) => 4
  }

  /** The argument at the position of the `k`-th parameter is the one read
      back by that parameter's name. */
  lemma ArgAt(args: seq<AbiValue>, params: seq<AbiParam>, k: nat)
    requires |args| == |params| && k < |params|
    requires forall j :: 0 <= j < k ==> params[j].name != params[k].name
    ensures ArgNamed(args, params, params[k].name) == Some(args[k])
  {
    IndexOfAt(ParamNames(params), k);
  }

  lemma DecodeUserQuery(u: string)
    ensures Decode(Encode(GetUserFiles(u))) == Some(GetUserFiles(u))
  {
    DeclarationAt(0);
    ArgAt(Encode(GetUserFiles(u)).args, FileSharingAbi[0].params, 0);
  }

  lemma DecodeSharedQuery(u: string)
    ensures Decode(Encode(GetSharedFiles(u))) == Some(GetSharedFiles(u))
  {
    DeclarationAt(1);
    ArgAt(Encode(GetSharedFiles(u)).args, FileSharingAbi[1].params, 0);
  }

  lemma DecodeShare(h: string, r: string)
    ensures Decode(Encode(ShareFile(h, r))) == Some(ShareFile(h, r))
  {
    var args := Encode(ShareFile(h, r)).args;
    DeclarationAt(2);
    ArgAt(args, FileSharingAbi[2].params, 0);
    ArgAt(args, FileSharingAbi[2].params, 1);
  }

  lemma DecodeDelete(n: string, v: nat)
    requires v < Uint256Bound
    ensures Decode(Encode(DeleteFile(n, v))) == Some(DeleteFile(n, v))
  {
    var args := Encode(DeleteFile(n, v)).args;
    DeclarationAt(3);
    ArgAt(args, FileSharingAbi[3].params, 0);
    ArgAt(args, FileSharingAbi[3].params, 1);
  }

  lemma DecodeUpload(h: string, n: string, d: string)
    ensures Decode(Encode(UploadFile(h, n, d))) == Some(UploadFile(h, n, d))
  {
    var args := Encode(UploadFile(h, n, d)).args;
    DeclarationAt(4);
    ArgAt(args, FileSharingAbi[4].params, 0);
    ArgAt(args, FileSharingAbi[4].params, 1);
    ArgAt(args, FileSharingAbi[4].params, 2);
  }

  /** The argument orders the client code uses agree with the binding: every
      call the client can write names a declared function, conforms to its
      parameter list, is a transaction exactly when the function is not a view,
      and is read back by parameter name as the very call intended. */
  lemma EncodeAgreesWithAbi(c: LedgerCall)
    requires InRange(c)
    ensures IndexOf(FunctionNames(FileSharingAbi), Encode(c).name) == Some(DeclarationIndex(c))
    ensures Conforms(Encode(c).args, FileSharingAbi[DeclarationIndex(c)].params)
    ensures FileSharingAbi[DeclarationIndex(c)].isView == !IsMutation(c)
    ensures Decode(Encode(c)) == Some(c)
  {
    DeclarationAt(DeclarationIndex(c));
    match c
    case GetUserFiles(u) => DecodeUserQuery(u);
    case GetSharedFiles(u) => DecodeSharedQuery(u);
    case ShareFile(h, r) => DecodeShare(h, r);
    case DeleteFile(n, v) => DecodeDelete(n, v);
    case UploadFile(h, n, d) => DecodeUpload(h, n, d);
  }

  /** The one-argument `deleteFile(hash)` written by the shared-files view does
      not conform to the binding's two-parameter declaration. */
  lemma OneArgumentDeleteDoesNotConform(hash: string)
    ensures Decode(Invocation("deleteFile", [VString(hash)])) == None
  {
    DeclarationAt(3);
  }

  // ---------------------------------------------------------------------------
  // File records as tuples

  function RecordTuple(r: FileRecord): (t: seq<AbiValue>) {
    [VString(r.fileName), VString(r.fileHash), VString(r.description), VUint(r.version),
     VAddress(r.owner), VBool(r.isDeleted), VAddressArray(r.sharedWith)]
  }

  /** Reads a tuple of the listing calls' return type back into a record. */
  function TupleRecord(t: seq<AbiValue>): (r: Option<FileRecord>) {
    if !Conforms(t, RecordLayout) then None
    else Some(FileRecord(t[0].s, t[1].s, t[2].s, t[3].n, t[4].a, t[5].b, t[6].addrs))
  }

  /** A record whose version fits a `uint256` survives the trip through the
      listing calls' tuple layout unchanged, and every conforming tuple is the
      image of exactly one record. */
  lemma RecordTupleRoundTrip(r: FileRecord, t: seq<AbiValue>)
    requires r.version < Uint256Bound
    ensures Conforms(RecordTuple(r), RecordLayout)
    ensures TupleRecord(RecordTuple(r)) == Some(r)
    ensures TupleRecord(t) == Some(r) ==> t == RecordTuple(r)
  {
    if TupleRecord(t) == Some(r) {
      assert HasType(t[0], TString) && HasType(t[1], TString) && HasType(t[2], TString);
      assert HasType(t[3], TUint256) && HasType(t[4], TAddress) && HasType(t[5], TBool);
      assert HasType(t[6], TAddressArray);
    }
  }

  // ---------------------------------------------------------------------------
  // The steps a handler takes against its collaborators

  /** One external interaction, in the order a handler performs them. */
  datatype Step =
    | EstimateGas(inv: Invocation)              // contract.estimateGas.<fn>(...)
    | Send(inv: Invocation, gasLimit: Option<nat>)  // a transaction, with the gas limit when one is given
    | AwaitReceipt                              // tx.wait()
    | Query(inv: Invocation)                    // a view call
    | Pin(content: seq<bv8>)                    // POST of the file to the content store
    | RequestAccounts                           // ethereum.request({ method: 'eth_requestAccounts' })
    | ListAccounts                              // provider.listAccounts()
    | SubscribeAccountsChanged                  // ethereum.on('accountsChanged', ...)
}
