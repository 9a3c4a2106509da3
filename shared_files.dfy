/** The shared-files view: a list of content ids, loaded from the ledger
    when the session provides a contract and an account, and filtered in place
    after a delete transaction has been waited for. Neither handler catches:
    a thrown value propagates out of the handler and the list is left as it
    was. */
module SharedFiles {
  import opened Js
  import opened Ledger

  /** `files.filter((h) => h !== hash)`. */
  function Without(files: seq<string>, hash: string): (r: seq<string>) {
    if files == [] then []
    else (if files[0] == hash then [] else [files[0]]) + Without(files[1..], hash)
  }

  /** Filtering removes every occurrence of the hash and keeps every other
      entry as often as it occurred. */
  lemma {:induction false} WithoutRemovesExactlyHash(files: seq<string>, hash: string)
    ensures hash !in Without(files, hash)
    ensures forall x :: x != hash ==> multiset(Without(files, hash))[x] == multiset(files)[x]
    ensures |Without(files, hash)| == |files| - multiset(files)[hash]
  {
    if files != [] {
      WithoutRemovesExactlyHash(files[1..], hash);
      assert files == [files[0]] + files[1..];
    }
  }

  /** Filtering a concatenation filters each part and keeps them in order; with
      the one-entry case this says the remaining entries keep their relative
      order. */
  lemma {:induction false} WithoutDistributes(a: seq<string>, b: seq<string>, hash: string)
    ensures Without(a + b, hash) == Without(a, hash) + Without(b, hash)
  {
    if a == [] {
      assert a + b == b;
    } else {
      assert (a + b)[0] == a[0];
      assert (a + b)[1..] == a[1..] + b;
      WithoutDistributes(a[1..], b, hash);
    }
  }

  /** A list without the hash is left as it is, and filtering twice is
      filtering once. */
  lemma {:induction false} WithoutIdempotent(files: seq<string>, hash: string)
    ensures hash !in files ==> Without(files, hash) == files
    ensures Without(Without(files, hash), hash) == Without(files, hash)
  {
    if files != [] {
      WithoutIdempotent(files[1..], hash);
      WithoutDistributes(if files[0] == hash then [] else [files[0]], Without(files[1..], hash), hash);
    }
  }

  /** What a handler of the view did. */
  datatype ViewOutcome =
    | Skipped              // no contract or no account: nothing is called
    | Done
    | Uncaught(error: JsValue)

  class SharedFilesView {
    var files: seq<string>

    constructor()
      ensures files == []
    {
      files := [];
    }

    /** `fetchSharedFiles`: with a contract and an account (the empty string
        stands for a null one), the list is replaced wholesale by the
        ledger's. */
    method FetchSharedFiles(hasContract: bool, account: string, listing: Reply<seq<string>>)
      returns (steps: seq<Step>, outcome: ViewOutcome)
      modifies this
      ensures outcome == Skipped <==> !hasContract || account == ""
      ensures outcome == Skipped ==> steps == []
      ensures outcome != Skipped ==> steps == [Query(Encode(GetSharedFiles(account)))]
      ensures outcome == Done <==> hasContract && account != "" && listing.Ok?
      ensures outcome == Done ==> files == listing.value
      ensures outcome != Done ==> files == old(files)
      ensures outcome.Uncaught? ==> listing == Threw(outcome.error)
    {
      if !hasContract || account == "" {
        return [], Skipped;
      }
      steps := [Query(Encode(GetSharedFiles(account)))];
      if listing.Threw? {
        return steps, Uncaught(listing.error);
      }
      files := listing.value;
      outcome := Done;
    }

    /** `handleDelete`: with a contract and an account, `deleteFile` is called
        with the hash as its only argument (the binding declares two, see
        `Ledger.OneArgumentDeleteDoesNotConform`), the transaction is waited
        for, and only then are the entries equal to the hash filtered out. */
    method HandleDelete(hasContract: bool, account: string, hash: string,
                        sent: Reply<()>, waited: Reply<()>)
      returns (steps: seq<Step>, outcome: ViewOutcome)
      modifies this
      ensures outcome == Skipped <==> !hasContract || account == ""
      ensures outcome == Skipped ==> steps == []
      ensures outcome != Skipped ==>
                1 <= |steps| <= 2 && steps[0] == Send(Invocation("deleteFile", [VString(hash)]), None)
      ensures |steps| == 2 ==> sent.Ok? && steps[1] == AwaitReceipt
      ensures outcome != Skipped ==> |steps| == (if sent.Threw? then 1 else 2)
      ensures outcome == Done <==> hasContract && account != "" && sent.Ok? && waited.Ok?
      ensures outcome == Done ==> files == Without(old(files), hash)
      ensures outcome != Done ==> files == old(files)
      ensures outcome.Uncaught? ==> outcome.error == (if sent.Threw? then sent.error else waited.error)
    {
      if !hasContract || account == "" {
        return [], Skipped;
      }
      steps := [Send(Invocation("deleteFile", [VString(hash)]), None)];
      if sent.Threw? {
        return steps, Uncaught(sent.error);
      }
      steps := steps + [AwaitReceipt];
      if waited.Threw? {
        return steps, Uncaught(waited.error);
      }
      files := Without(files, hash);
      outcome := Done;
    }
  }
}
