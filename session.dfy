/** The wallet session held by the client's context provider: the connected
    account and the connection flag, driven by the discovery that runs once
    when the provider mounts, by the connect button and by the wallet's
    `accountsChanged` event. The injected wallet (`window.ethereum`) is not
    modelled: whether it exists and what each of its calls returned or threw
    are parameters. */
module Session {
  import opened Js
  import opened Ledger

  /** `accounts[0] || null`: the first account when there is one and it is a
      non-empty string; `null` otherwise (the empty string is falsy). */
  function FirstAccountOrNull(accounts: seq<string>): (r: Option<string>) {
    if |accounts| > 0 && accounts[0] != "" then Some(accounts[0]) else None
  }

  /** What `connectWallet` did. */
  datatype ConnectOutcome =
    | NoWallet              // no injected wallet: the user is told to install one
    | Rejected(error: JsValue)  // the permission request or the account listing threw; logged only
    | Connected

  class Web3Session {
    var account: Option<string>
    var isConnected: bool
    /** Whether the file-sharing contract binding has been created. */
    var hasFileSharingContract: bool
    /** Whether the `accountsChanged` handler has been registered. */
    var listening: bool

    /** The provider's initial state: no account, not connected, no contract
        binding, no event handler. */
    constructor()
      ensures account == None && !isConnected
      ensures !hasFileSharingContract && !listening
    {
      account := None;
      isConnected := false;
      hasFileSharingContract := false;
      listening := false;
    }

    /** The discovery run when the provider mounts (`initWeb3`). With a wallet
        present it lists the accounts already authorised; a non-empty list
        selects its first entry and marks the session connected, an empty one
        leaves both fields alone. It then binds the contract when an address
        is configured (a non-empty string) and registers the event handler.
        A listing that throws ends the run there, uncaught. `steps` are the
        wallet calls made, in order. */
    method InitWeb3(hasWallet: bool, listed: Reply<seq<string>>, contractAddress: string)
      returns (steps: seq<Step>)
      modifies this
      ensures steps == (if !hasWallet then [] else if listed.Threw? then [ListAccounts]
                        else [ListAccounts, SubscribeAccountsChanged])
      ensures !hasWallet || listed.Threw? ==>
                account == old(account) && isConnected == old(isConnected) &&
                hasFileSharingContract == old(hasFileSharingContract) && listening == old(listening)
      ensures hasWallet && listed.Ok? && |listed.value| > 0 ==>
                account == Some(listed.value[0]) && isConnected
      ensures hasWallet && listed.Ok? && |listed.value| == 0 ==>
                account == old(account) && isConnected == old(isConnected)
      ensures hasWallet && listed.Ok? ==>
                hasFileSharingContract == (old(hasFileSharingContract) || contractAddress != "") &&
                listening
    {
      steps := [];
      if !hasWallet {
        return;
      }
      steps := steps + [ListAccounts];
      if listed.Threw? {
        return;
      }
      var accounts := listed.value;
      if |accounts| > 0 {
        account := Some(accounts[0]);
        isConnected := true;
      }
      if contractAddress != "" {
        hasFileSharingContract := true;
      }
      steps := steps + [SubscribeAccountsChanged];
      listening := true;
    }

    /** The `accountsChanged` handler, once registered: the account becomes
        the first entry or null, and the flag records whether the list is
        non-empty. Before registration the event reaches nobody. */
    method AccountsChanged(accounts: seq<string>)
      modifies this`account, this`isConnected
      ensures old(listening) ==> account == FirstAccountOrNull(accounts) && isConnected == (|accounts| > 0)
      ensures !old(listening) ==> account == old(account) && isConnected == old(isConnected)
      // connected exactly when an account is present, unless the first entry is the empty string
      ensures old(listening) && (|accounts| > 0 ==> accounts[0] != "") ==> (isConnected <==> account.Some?)
    {
      if listening {
        account := FirstAccountOrNull(accounts);
        isConnected := |accounts| > 0;
      }
    }

    /** `connectWallet`. Without a wallet nothing changes. Otherwise it asks for
        permission, then lists the accounts; if either throws, the failure is
        logged and nothing changes. On success the flag is set whatever the
        list holds, and the account is its first entry (absent for an empty
        list). Failure never propagates to the caller. `steps` are the wallet
        calls made, in order: no listing after a refused request. */
    method ConnectWallet(hasWallet: bool, request: Reply<()>, listed: Reply<seq<string>>)
      returns (steps: seq<Step>, outcome: ConnectOutcome)
      modifies this`account, this`isConnected
      ensures steps == (if !hasWallet then [] else if request.Threw? then [RequestAccounts]
                        else [RequestAccounts, ListAccounts])
      ensures outcome == NoWallet <==> !hasWallet
      ensures hasWallet && request.Threw? ==> outcome == Rejected(request.error)
      ensures hasWallet && request.Ok? && listed.Threw? ==> outcome == Rejected(listed.error)
      ensures outcome == Connected <==> hasWallet && request.Ok? && listed.Ok?
      ensures outcome == Connected ==>
                isConnected &&
                account == (if |listed.value| > 0 then Some(listed.value[0]) else None)
      ensures outcome != Connected ==> account == old(account) && isConnected == old(isConnected)
    {
      steps := [];
      if !hasWallet {
        return steps, NoWallet;
      }
      steps := steps + [RequestAccounts];
      if request.Threw? {
        return steps, Rejected(request.error);
      }
      steps := steps + [ListAccounts];
      if listed.Threw? {
        return steps, Rejected(listed.error);
      }
      var accounts := listed.value;
      account := if |accounts| > 0 then Some(accounts[0]) else None;
      isConnected := true;
      outcome := Connected;
    }
  }
}
