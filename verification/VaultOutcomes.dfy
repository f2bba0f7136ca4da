/** How a vault operation ends, told beforehand from the faults the environment
    has in store for it. */
module VaultOutcomes {
  import opened Results

  /** A credential's account name, or that of one of the three sync secrets. */
  type Key = string

  type Secret = string

  const MAX_VAULT_PASSPHRASE_BYTES := 1024

  const SYNC_KEYS: seq<Key> := ["sync:github-token", "sync:webdav-password", "sync:passphrase"]

  datatype Mode = Disabled | Locked | Unlocked

  /** What the environment does to one store operation. A failing write may
      still have been applied, and a write may store something else. */
  datatype Fault = Works | Fails(applied: bool) | Corrupts(stored: Secret)

  /** What it does to one operation on the settings file. The file is replaced
      by a rename, and an error after the rename leaves the new flag in place. */
  datatype FlagFault = Written | Refused | Torn

  datatype EnableResult =
    | Enabled
    | AlreadyEnabled
    | BadPassphrase
    | NotOpened
    | NotCollected
    | NotCopied
    | NotPersisted

  datatype DisableResult = DisabledNow | NotUnlocked | NotListed | NotCopiedBack | FlagNotCleared

  // -------------------------------------------------------------------
  // The settings file
  // -------------------------------------------------------------------

  /** The settings operation that is to come `n` operations from now. */
  function Coming(faults: seq<FlagFault>, n: nat): FlagFault {
    if n < |faults| then faults[n] else Written
  }

  /** Setting the flag reads the settings again, then writes them if needed. */
  predicate FlagAccepted(faults: seq<FlagFault>, was: bool, enabled: bool) {
    Coming(faults, 0).Written? && (was == enabled || Coming(faults, 1).Written?)
  }

  function FlagAfter(faults: seq<FlagFault>, was: bool, enabled: bool): bool {
    if Coming(faults, 0).Written? && !Coming(faults, 1).Refused? then enabled else was
  }

  /** No settings write reports failure after taking effect. */
  ghost predicate NoneTorn(faults: seq<FlagFault>) {
    forall i :: 0 <= i < |faults| ==> !faults[i].Torn?
  }

  lemma FlagOutcomes(faults: seq<FlagFault>, was: bool, enabled: bool)
    ensures FlagAfter(faults, was, enabled) == was || FlagAfter(faults, was, enabled) == enabled
    ensures FlagAccepted(faults, was, enabled) ==> FlagAfter(faults, was, enabled) == enabled
    ensures NoneTorn(faults) && !FlagAccepted(faults, was, enabled) ==> FlagAfter(faults, was, enabled) == was
  {
  }

  // -------------------------------------------------------------------
  // The stores
  // -------------------------------------------------------------------

  /** The store operation that is to come `n` operations from now. */
  function Upcoming(faults: seq<Fault>, n: nat): Fault {
    if n < |faults| then faults[n] else Works
  }

  /** What is left after `n` operations. */
  function Later(faults: seq<Fault>, n: nat): seq<Fault> {
    if n < |faults| then faults[n..] else []
  }

  lemma LaterLater(faults: seq<Fault>, n: nat, m: nat)
    ensures Later(Later(faults, n), m) == Later(faults, n + m)
    ensures Upcoming(Later(faults, n), m) == Upcoming(faults, n + m)
  {
  }

  predicate Succeeds(faults: seq<Fault>, n: nat) {
    !Upcoming(faults, n).Fails?
  }

  /** What a write that reports success has stored. */
  function Stored(fault: Fault, value: Secret): Secret {
    if fault.Corrupts? then fault.stored else value
  }

  predicate OneSucceeds(source: map<Key, Secret>, key: Key, faults: seq<Fault>) {
    && Succeeds(faults, 0)
    && (key in source ==>
          Succeeds(faults, 1) && Succeeds(faults, 2) && Stored(Upcoming(faults, 1), source[key]) == source[key])
  }

  /** Copying an account reads it, and if it is there writes and reads it back, as
      far as it gets. */
  function OneLength(source: map<Key, Secret>, key: Key, faults: seq<Fault>): nat {
    if !Succeeds(faults, 0) || key !in source then 1 else if !Succeeds(faults, 1) then 2 else 3
  }

  predicate ListSucceeds(source: map<Key, Secret>, keys: seq<Key>, faults: seq<Fault>) {
    keys == []
    || (OneSucceeds(source, keys[0], faults)
        && ListSucceeds(source, keys[1..], Later(faults, OneLength(source, keys[0], faults))))
  }

  /** How many store operations copying takes, up to its end or its failure. */
  function ListLength(source: map<Key, Secret>, keys: seq<Key>, faults: seq<Fault>): nat {
    if keys == [] then 0
    else
      var one := OneLength(source, keys[0], faults);
      one + (if OneSucceeds(source, keys[0], faults) then ListLength(source, keys[1..], Later(faults, one)) else 0)
  }

  lemma ListStep(source: map<Key, Secret>, keys: seq<Key>, n: nat, faults: seq<Fault>)
    requires n < |keys|
    ensures var one := OneLength(source, keys[n], faults);
            && (ListSucceeds(source, keys[n..], faults) <==>
                OneSucceeds(source, keys[n], faults) && ListSucceeds(source, keys[n + 1..], Later(faults, one)))
            && ListLength(source, keys[n..], faults) ==
               one + (if OneSucceeds(source, keys[n], faults)
                      then ListLength(source, keys[n + 1..], Later(faults, one)) else 0)
  {
    assert keys[n..][1..] == keys[n + 1..];
  }

  lemma ListEnd(source: map<Key, Secret>, keys: seq<Key>, faults: seq<Fault>)
    requires keys == []
    ensures ListSucceeds(source, keys, faults) && Later(faults, ListLength(source, keys, faults)) == faults
  {
  }

  /** The accounts, then the three sync secrets. */
  predicate CopySucceeds(source: map<Key, Secret>, accounts: seq<Key>, faults: seq<Fault>) {
    && ListSucceeds(source, accounts, faults)
    && ListSucceeds(source, SYNC_KEYS, Later(faults, ListLength(source, accounts, faults)))
  }

  function CopyLength(source: map<Key, Secret>, accounts: seq<Key>, faults: seq<Fault>): nat {
    var first := ListLength(source, accounts, faults);
    first + (if ListSucceeds(source, accounts, faults)
             then ListLength(source, SYNC_KEYS, Later(faults, first)) else 0)
  }

  lemma {:induction false} FaultlessListSucceeds(source: map<Key, Secret>, keys: seq<Key>)
    ensures ListSucceeds(source, keys, [])
  {
    if keys != [] {
      FaultlessListSucceeds(source, keys[1..]);
    }
  }

  lemma FaultlessCopySucceeds(source: map<Key, Secret>, accounts: seq<Key>)
    ensures CopySucceeds(source, accounts, [])
  {
    FaultlessListSucceeds(source, accounts);
    FaultlessListSucceeds(source, SYNC_KEYS);
  }

  /** A deletion that is refused changes nothing. */
  predicate Denied(faults: seq<Fault>, n: nat) {
    Upcoming(faults, n) == Fails(false)
  }

  /** What is left of a store after its accounts were deleted one by one: only
      those whose every deletion was refused. */
  function CleanedUp(store: map<Key, Secret>, accounts: seq<Key>, faults: seq<Fault>): map<Key, Secret> {
    map k | k in store && (forall n :: 0 <= n < |accounts| && accounts[n] == k ==> Denied(faults, n)) :: store[k]
  }

  /** Nothing of them is left when no deletion is refused. */
  lemma NothingIsLeft(store: map<Key, Secret>, accounts: seq<Key>, faults: seq<Fault>)
    requires forall n :: 0 <= n < |accounts| ==> !Denied(faults, n)
    ensures CleanedUp(store, accounts, faults) == map k | k in store && k !in accounts :: store[k]
  {
    forall k | k in store
      ensures k in CleanedUp(store, accounts, faults) <==> k !in accounts
    {
      if k in accounts {
        var n :| 0 <= n < |accounts| && accounts[n] == k;
        assert !Denied(faults, n);
      }
    }
  }

  // -------------------------------------------------------------------
  // Outcomes
  // -------------------------------------------------------------------

  predicate FitsProtection(passphrase: string) {
    0 < |passphrase| <= MAX_VAULT_PASSPHRASE_BYTES
  }

  /** A missing file opens with any passphrase, as an empty vault. */
  predicate Opens(sealed: Option<string>, passphrase: string) {
    sealed.None? || sealed.value == passphrase
  }

  /** Protecting the passphrase and opening the vault come before the copy. */
  const BEFORE_COPY := 2

  /** `left` is the passphrase of a vault file that an earlier failure left behind. */
  function EnableOutcome(mode: Mode, platform: map<Key, Secret>, flag: bool, left: Option<string>, passphrase: string,
                         accounts: Option<seq<Key>>, faults: seq<Fault>, settings: seq<FlagFault>): EnableResult
  {
    if mode != Disabled then AlreadyEnabled
    else if !FitsProtection(passphrase) || !Succeeds(faults, 0) then BadPassphrase
    else if !Succeeds(faults, 1) || !Opens(left, passphrase) then NotOpened
    else if accounts.None? then NotCollected
    else if !CopySucceeds(platform, accounts.value, Later(faults, BEFORE_COPY)) then NotCopied
    else if !FlagAccepted(settings, flag, true) then NotPersisted
    else Enabled
  }

  /** How many store operations come before the erasure that undoes an enabling,
      or before the cleanup that completes one. */
  function BeforeEnd(platform: map<Key, Secret>, accounts: seq<Key>, faults: seq<Fault>): nat {
    BEFORE_COPY + CopyLength(platform, accounts, Later(faults, BEFORE_COPY))
  }

  /** `held` tells whether the vault's file still opens with the passphrase held. */
  function DisableOutcome(mode: Mode, vault: map<Key, Secret>, flag: bool, held: bool, accounts: Option<seq<Key>>,
                          faults: seq<Fault>, settings: seq<FlagFault>): DisableResult
  {
    if mode != Unlocked then NotUnlocked
    else if accounts.None? then NotListed
    else if !held || !CopySucceeds(vault, accounts.value, faults) then NotCopiedBack
    else if !FlagAccepted(settings, flag, false) then FlagNotCleared
    else DisabledNow
  }

  /** `sealed` is the passphrase of the vault file, if there is one. */
  predicate UnlockSucceeds(mode: Mode, sealed: Option<string>, passphrase: string, faults: seq<Fault>) {
    && mode != Disabled
    && Succeeds(faults, 0) && sealed == Some(passphrase)
    && FitsProtection(passphrase)
    && Succeeds(faults, 1) && Succeeds(faults, 2)
  }

  predicate ChangeReachesFile(mode: Mode, sealed: Option<string>, current: string, replacement: string,
                              faults: seq<Fault>)
  {
    && mode != Disabled
    && FitsProtection(current) && Succeeds(faults, 0)
    && FitsProtection(replacement) && Succeeds(faults, 1)
    && Opens(sealed, current)
  }

  predicate ChangeSucceeds(mode: Mode, sealed: Option<string>, current: string, replacement: string,
                           faults: seq<Fault>)
  {
    ChangeReachesFile(mode, sealed, current, replacement, faults) && Succeeds(faults, 2) && Succeeds(faults, 3)
  }

  /** With working stores, only the mode, the passphrase, the list of accounts and
      the settings file decide. */
  lemma FaultlessOutcomes(platform: map<Key, Secret>, vault: map<Key, Secret>, flag: bool, passphrase: string,
                          accounts: seq<Key>, settings: seq<FlagFault>)
    requires FitsProtection(passphrase)
    ensures EnableOutcome(Disabled, platform, flag, None, passphrase, Some(accounts), [], settings)
         == if FlagAccepted(settings, flag, true) then Enabled else NotPersisted
    ensures DisableOutcome(Unlocked, vault, flag, true, Some(accounts), [], settings)
         == if FlagAccepted(settings, flag, false) then DisabledNow else FlagNotCleared
    ensures !Denied([], BeforeEnd(platform, accounts, []))
  {
    FaultlessCopySucceeds(platform, accounts);
    FaultlessCopySucceeds(vault, accounts);
  }
}
