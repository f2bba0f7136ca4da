/** Moving credentials between the platform store and the local vault, with a
    fault possible at every store operation, and the life of vault passphrases. */
module VaultMigration {
  import opened Results
  import opened VaultOutcomes

  /** The store the running process reads and writes. */
  datatype Active = PlatformStore | VaultStore | LockedStore

  datatype StoreId = Platform | Vault

  /** What survives a crash. `sealed` is the passphrase of the vault file, as long
      as there is one. */
  datatype Disk = Disk(platform: map<Key, Secret>, vault: Option<map<Key, Secret>>, sealed: string, vaultEnabled: bool)
  {
    function Seal(): Option<string> {
      if vault.Some? then Some(sealed) else None
    }
  }

  /** A passphrase in protected memory; the numbers tell them apart. */
  datatype Protected = Protected(id: nat, text: string)

  function VaultContents(d: Disk): map<Key, Secret> {
    if d.vault.Some? then d.vault.value else map[]
  }

  function Contents(d: Disk, store: StoreId): map<Key, Secret> {
    if store.Platform? then d.platform else VaultContents(d)
  }

  /** The store a fresh process selects: the persisted flag alone decides. */
  function Selected(d: Disk): map<Key, Secret> {
    if d.vaultEnabled then VaultContents(d) else d.platform
  }

  predicate Holds(store: map<Key, Secret>, need: map<Key, Secret>) {
    forall k :: k in need ==> k in store && store[k] == need[k]
  }

  /** A crash now would lose none of the needed secrets. */
  predicate CrashSafe(d: Disk, need: map<Key, Secret>) {
    Holds(Selected(d), need)
  }

  /** The secrets of the given accounts. */
  function Pick(store: map<Key, Secret>, keys: seq<Key>): map<Key, Secret> {
    map k | k in store && k in keys :: store[k]
  }

  /** What a migration of these accounts has to carry over. */
  function Needed(store: map<Key, Secret>, accounts: seq<Key>): map<Key, Secret> {
    Pick(store, accounts + SYNC_KEYS)
  }

  /** The two stores agree on every other account. */
  ghost predicate SameBut(a: map<Key, Secret>, b: map<Key, Secret>, keys: seq<Key>) {
    && (forall k :: k !in keys ==> (k in a <==> k in b))
    && (forall k :: k !in keys && k in a && k in b ==> a[k] == b[k])
  }

  /** Nothing is removed unless the accounts could be listed. */
  function MigrationNeeds(store: map<Key, Secret>, accounts: Option<seq<Key>>): map<Key, Secret> {
    if accounts.Some? then Needed(store, accounts.value) else store
  }

  /** Enabling gets as far as the flag, the flag is written and reported not to
      be, and the vault goes with a needed secret in it. */
  predicate Strands(mode: Mode, platform: map<Key, Secret>, left: Option<string>, passphrase: string,
                    accounts: Option<seq<Key>>, faults: seq<Fault>, settings: seq<FlagFault>)
  {
    && EnableOutcome(mode, platform, false, left, passphrase, accounts, faults, settings) == NotPersisted
    && FlagAfter(settings, false, true)
    && !Denied(faults, BeforeEnd(platform, accounts.value, faults))
    && MigrationNeeds(platform, accounts) != map[]
  }

  /** Disabling gets as far as the flag, and the flag is cleared and reported not
      to be. */
  predicate Divides(mode: Mode, vault: map<Key, Secret>, held: bool, accounts: Option<seq<Key>>, faults: seq<Fault>,
                    settings: seq<FlagFault>)
  {
    && DisableOutcome(mode, vault, true, held, accounts, faults, settings) == FlagNotCleared
    && !FlagAfter(settings, true, false)
  }

  /** A change of the passphrase gets as far as the file, and rewrites it under a
      different one, but reports that it did not. */
  predicate Strays(mode: Mode, sealed: Option<string>, current: string, replacement: string, held: string,
                   faults: seq<Fault>)
  {
    && ChangeReachesFile(mode, sealed, current, replacement, faults)
    && Upcoming(faults, 2) == Fails(true)
    && replacement != held
  }

  /** Without torn settings writes neither happens, whatever the stores do. */
  lemma UntornNeverStrandsNorDivides(mode: Mode, store: map<Key, Secret>, left: Option<string>, passphrase: string,
                                     held: bool, accounts: Option<seq<Key>>, faults: seq<Fault>,
                                     settings: seq<FlagFault>)
    requires NoneTorn(settings)
    ensures !Strands(mode, store, left, passphrase, accounts, faults, settings)
    ensures !Divides(mode, store, held, accounts, faults, settings)
  {
    FlagOutcomes(settings, false, true);
    FlagOutcomes(settings, true, false);
  }

  /** With working stores and something to move, enabling strands it, and
      disabling divides process and flag, exactly when the flag is written and
      reported not to be. */
  lemma WorkingStoresStrandOrDivide(platform: map<Key, Secret>, vault: map<Key, Secret>, passphrase: string,
                                    accounts: seq<Key>, settings: seq<FlagFault>)
    requires FitsProtection(passphrase)
    ensures Strands(Disabled, platform, None, passphrase, Some(accounts), [], settings) <==>
            && FlagAfter(settings, false, true) && !FlagAccepted(settings, false, true)
            && Needed(platform, accounts) != map[]
    ensures Divides(Unlocked, vault, true, Some(accounts), [], settings) <==>
            !FlagAfter(settings, true, false) && !FlagAccepted(settings, true, false)
  {
    FaultlessOutcomes(platform, vault, false, passphrase, accounts, settings);
    FaultlessOutcomes(platform, vault, true, passphrase, accounts, settings);
  }

  /** `d` differs from `base` in the given store at most. */
  predicate OnlyStore(base: Disk, store: StoreId, d: Disk) {
    && d.vaultEnabled == base.vaultEnabled
    && (store.Platform? ==> d.vault == base.vault && d.sealed == base.sealed)
    && (store.Vault? ==> d.platform == base.platform)
  }

  /** The disk went on from `before` through states that differ from `base`
      in the given store at most, and is now in one of them. */
  predicate Within(base: Disk, store: StoreId, before: seq<Disk>, after: seq<Disk>) {
    && 0 < |before| <= |after|
    && before == after[..|before|]
    && OnlyStore(base, store, after[|after| - 1])
    && forall i :: |before| <= i < |after| ==> OnlyStore(base, store, after[i])
  }

  lemma SucceedsLater(faults: seq<Fault>, n: nat, m: nat)
    ensures Succeeds(Later(faults, n), m) <==> Succeeds(faults, n + m)
  {
    LaterLater(faults, n, m);
  }

  lemma DeniedLater(faults: seq<Fault>, n: nat, m: nat)
    ensures Denied(Later(faults, n), m) <==> Denied(faults, n + m)
  {
    LaterLater(faults, n, m);
  }

  lemma DeniedOrNot(faults: seq<Fault>, n: nat)
    ensures Upcoming(faults, n) == Fails(true) <==> !Denied(faults, n) && !Succeeds(faults, n)
  {
  }

  lemma NothingCleaned(store: map<Key, Secret>, accounts: seq<Key>, faults: seq<Fault>)
    ensures CleanedUp(store, accounts[..0], faults) == store
  {
  }

  lemma CleanedOne(store: map<Key, Secret>, accounts: seq<Key>, n: nat, faults: seq<Fault>)
    requires n < |accounts|
    ensures CleanedUp(store, accounts[..n + 1], faults) ==
            if Denied(faults, n) then CleanedUp(store, accounts[..n], faults)
            else CleanedUp(store, accounts[..n], faults) - {accounts[n]}
    ensures Denied(Later(faults, n), 0) <==> Denied(faults, n)
  {
    hide Denied;
    DeniedLater(faults, n, 0);
    var upTo, more := accounts[..n], accounts[..n + 1];
    assert more == upTo + [accounts[n]];
    forall k | k in store
      ensures (forall i :: 0 <= i < |more| && more[i] == k ==> Denied(faults, i)) <==>
              && (forall i :: 0 <= i < |upTo| && upTo[i] == k ==> Denied(faults, i))
              && (accounts[n] == k ==> Denied(faults, n))
    {
      forall i | 0 <= i < |upTo|
        ensures more[i] == upTo[i]
      {
      }
    }
  }

  lemma WithinJoin(base: Disk, store: StoreId, before: seq<Disk>, mid: seq<Disk>, after: seq<Disk>)
    requires Within(base, store, before, mid)
    requires Within(mid[|mid| - 1], store, mid, after)
    ensures Within(base, store, before, after)
    ensures OnlyStore(base, store, after[|after| - 1])
  {
    assert before == mid[..|before|] == after[..|before|];
    forall i | |before| <= i < |after|
      ensures OnlyStore(base, store, after[i])
    {
      if i < |mid| {
        assert after[i] == mid[i];
      }
    }
  }

  lemma SameButJoin(a: map<Key, Secret>, b: map<Key, Secret>, c: map<Key, Secret>, keys: seq<Key>, n: nat)
    requires n < |keys| && SameBut(a, b, keys) && SameBut(b, c, [keys[n]])
    ensures SameBut(a, c, keys)
  {
    forall k | k !in keys
      ensures k in a <==> k in c
      ensures k in a && k in c ==> a[k] == c[k]
    {
      assert k !in [keys[n]];
    }
  }

  lemma PickSnoc(target: map<Key, Secret>, source: map<Key, Secret>, keys: seq<Key>, n: nat)
    requires n < |keys|
    ensures target + Pick(source, keys[..n]) + Pick(source, [keys[n]]) == target + Pick(source, keys[..n + 1])
  {
    assert keys[..n + 1] == keys[..n] + [keys[n]];
  }

  lemma WithinRefl(base: Disk, store: StoreId, trail: seq<Disk>)
    requires trail != [] && trail[|trail| - 1] == base
    ensures Within(base, store, trail, trail)
  {
  }

  lemma PickNothing(target: map<Key, Secret>, source: map<Key, Secret>, keys: seq<Key>)
    ensures target + Pick(source, keys[..0]) == target
  {
  }

  lemma SameButRefl(a: map<Key, Secret>, keys: seq<Key>)
    ensures SameBut(a, a, keys)
  {
  }

  /** A store that changed at one account, and holds the source's secret there. */
  lemma CopiedOne(was: map<Key, Secret>, now: map<Key, Secret>, source: map<Key, Secret>, key: Key)
    requires SameBut(was, now, [key])
    requires key in source ==> key in now && now[key] == source[key]
    requires key !in source ==> now == was
    ensures now == was + Pick(source, [key])
  {
    var expected := was + Pick(source, [key]);
    forall k
      ensures k in now <==> k in expected
      ensures k in now && k in expected ==> now[k] == expected[k]
    {
      if k != key {
        assert k !in [key];
      } else {
        assert k in [key];
      }
    }
  }

  lemma SameButMore(a: map<Key, Secret>, b: map<Key, Secret>, c: map<Key, Secret>, fst: seq<Key>, snd: seq<Key>)
    requires SameBut(a, b, fst) && SameBut(b, c, snd)
    ensures SameBut(a, c, fst + snd)
  {
  }

  /** Every state the disk went through since `start` survives a crash. */
  ghost predicate AllSafe(trail: seq<Disk>, start: nat, need: map<Key, Secret>) {
    forall i :: start <= i < |trail| ==> CrashSafe(trail[i], need)
  }

  /** While only the store that a restart does not select changes, nothing can
      be lost. */
  lemma StillSafe(base: Disk, store: StoreId, before: seq<Disk>, after: seq<Disk>, start: nat, need: map<Key, Secret>)
    requires Within(base, store, before, after) && start <= |before|
    ensures (store.Vault? <==> !base.vaultEnabled) && CrashSafe(base, need) && AllSafe(before, start, need) ==>
      AllSafe(after, start, need)
    ensures |before| <= |after| && before[..start] == after[..start] && OnlyStore(base, store, after[|after| - 1])
  {
    hide CrashSafe;
    if (store.Vault? <==> !base.vaultEnabled) && CrashSafe(base, need) && AllSafe(before, start, need) {
      forall i | start <= i < |after|
        ensures CrashSafe(after[i], need)
      {
        if i < |before| {
          assert after[i] == before[i];
        } else {
          SafeOnly(base, store, after[i], need);
        }
      }
    }
  }

  lemma SafeOnly(base: Disk, store: StoreId, d: Disk, need: map<Key, Secret>)
    requires OnlyStore(base, store, d) && CrashSafe(base, need)
    requires store.Vault? <==> !base.vaultEnabled
    ensures CrashSafe(d, need)
  {
  }

  lemma SafeStep(before: seq<Disk>, d: Disk, after: seq<Disk>, start: nat, need: map<Key, Secret>)
    requires after == before || after == before + [d]
    requires start <= |before| && AllSafe(before, start, need)
    requires CrashSafe(d, need)
    ensures AllSafe(after, start, need)
    ensures before[..start] == after[..start]
  {
    hide CrashSafe;
    forall i | start <= i < |after|
      ensures CrashSafe(after[i], need)
    {
      if i < |before| {
        assert after[i] == before[i];
      }
    }
  }

  lemma PickTwice(target: map<Key, Secret>, source: map<Key, Secret>, accounts: seq<Key>)
    ensures target + Pick(source, accounts) + Pick(source, SYNC_KEYS) == target + Needed(source, accounts)
  {
  }

  lemma NothingNew(base: Disk, trail: seq<Disk>, need: map<Key, Secret>)
    requires trail != [] && trail[|trail| - 1] == base
    ensures AllSafe(trail, |trail|, need)
    ensures Within(base, Vault, trail, trail) && Within(base, Platform, trail, trail)
  {
  }

  lemma NeedsAtStart(base: Disk, store: map<Key, Secret>, accounts: Option<seq<Key>>)
    ensures Selected(base) == store ==> CrashSafe(base, MigrationNeeds(store, accounts))
    ensures Holds(store, MigrationNeeds(store, accounts))
    ensures accounts.Some? ==> MigrationNeeds(store, accounts) == Needed(store, accounts.value)
  {
  }

  lemma VaultTakesOver(source: map<Key, Secret>, filled: map<Key, Secret>, was: map<Key, Secret>, accounts: seq<Key>)
    requires filled == was + Needed(source, accounts)
    ensures Holds(source, Needed(source, accounts)) && Holds(filled, Needed(source, accounts))
  {
  }

  lemma BothSelected(d: Disk, need: map<Key, Secret>)
    requires Holds(d.platform, need) && Holds(VaultContents(d), need)
    ensures CrashSafe(d, need)
  {
  }

  lemma SafeJoin(before: seq<Disk>, after: seq<Disk>, start: nat, need: map<Key, Secret>)
    requires start <= |before| <= |after| && before == after[..|before|]
    requires AllSafe(before, start, need)
    ensures AllSafe(after, start, need) <==> AllSafe(after, |before|, need)
  {
    hide CrashSafe;
    forall i | start <= i < |before|
      ensures CrashSafe(after[i], need)
    {
      assert after[i] == before[i];
    }
  }

  /** With the flag set, erasing the vault is safe only if nothing is needed. */
  lemma Erased(before: seq<Disk>, d: Disk, after: seq<Disk>, start: nat, need: map<Key, Secret>)
    requires start <= |before| && AllSafe(before, start, need)
    requires after == before || after == before + [d]
    requires d.vault.None? ==> after == before + [d]
    requires d.vault.Some? ==> after == before
    requires d.vaultEnabled
    ensures before[..start] == after[..start]
    ensures AllSafe(after, start, need) <==> !(d.vault.None? && need != map[])
  {
    if d.vault.None? {
      assert after[|before|] == d;
      if need == map[] {
        SafeStep(before, d, after, start, need);
      } else {
        var k :| k in need;
        assert !CrashSafe(d, need);
      }
    }
  }

  class MobileData {
    // What survives a crash.
    var disk: Disk

    // State of the running process.
    var secrets: Active
    var vaultMode: Mode
    var vaultPassphrase: Option<Protected>

    /** What the vault store in use, or being filled, presents to the file. */
    var vaultText: string

    // What the environment will do to the coming store and settings operations.
    var faults: seq<Fault>
    var settingsFaults: seq<FlagFault>

    /** Every state the disk has gone through. */
    ghost var trail: seq<Disk>

    // Protected passphrases are told apart by the order of their creation.
    var handedOut: nat
    ghost var installed: set<nat>
    ghost var revoked: set<nat>

    ghost predicate OnTrail()
      reads this`disk, this`trail
    {
      trail != [] && trail[|trail| - 1] == disk
    }

    /** Every passphrase ever installed, other than the one held, was revoked. */
    ghost predicate OthersRevoked()
      reads this`vaultPassphrase, this`installed, this`revoked, this`handedOut
    {
      && (vaultPassphrase.Some? ==> vaultPassphrase.value.id in installed)
      && (forall p :: p in revoked <==> p in installed && (vaultPassphrase.Some? ==> vaultPassphrase.value.id != p))
      && (forall p :: p in installed ==> p < handedOut)
    }

    /** And one is held exactly while the vault is unlocked. */
    ghost predicate Valid()
      reads this
    {
      && OnTrail()
      && OthersRevoked()
      && (vaultPassphrase.Some? <==> vaultMode.Unlocked?)
      && (vaultPassphrase.Some? ==> vaultPassphrase.value.text == vaultText)
      && secrets == (match vaultMode
                     case Disabled => PlatformStore
                     case Locked => LockedStore
                     case Unlocked => VaultStore)
    }

    /** The file opens with what the vault store in use presents. */
    predicate Fits()
      reads this`disk, this`vaultText
    {
      Opens(disk.Seal(), vaultText)
    }

    predicate Reaches(store: StoreId)
      reads this`disk, this`vaultText
    {
      store.Vault? ==> Fits()
    }

    /** The running process and the persisted flag agree on the mode. */
    ghost predicate InStep()
      reads this`disk, this`vaultMode
    {
      disk.vaultEnabled <==> !vaultMode.Disabled?
    }

    /** What the running process reads. */
    function InUse(): map<Key, Secret>
      reads this`disk, this`secrets
    {
      match secrets
      case PlatformStore => disk.platform
      case VaultStore => VaultContents(disk)
      case LockedStore => map[]
    }

    // -------------------------------------------------------------------
    // Store operations
    // -------------------------------------------------------------------

    method TakeFault() returns (fault: Fault)
      modifies this`faults
      ensures fault == Upcoming(old(faults), 0) && faults == Later(old(faults), 1)
    {
      if faults == [] {
        return Works;
      }
      fault := faults[0];
      faults := faults[1..];
    }

    method Get(store: StoreId, key: Key) returns (result: Result<Option<Secret>, ()>)
      modifies this`faults
      ensures result.Ok? ==>
                result.value == if key in Contents(disk, store) then Some(Contents(disk, store)[key]) else None
      ensures result.Ok? <==> Succeeds(old(faults), 0) && Reaches(store)
      ensures faults == Later(old(faults), 1)
    {
      var fault := TakeFault();
      if fault.Fails? || !Reaches(store) {
        return Err(());
      }
      result := Ok(if key in Contents(disk, store) then Some(Contents(disk, store)[key]) else None);
    }

    method Write(store: StoreId, contents: map<Key, Secret>)
      requires OnTrail()
      modifies this`disk, this`trail
      ensures OnTrail() && Contents(disk, store) == contents
      ensures disk == if store.Platform? then old(disk).(platform := contents)
                      else old(disk).(vault := Some(contents), sealed := vaultText)
      ensures trail == old(trail) + [disk]
    {
      if store.Platform? {
        disk := disk.(platform := contents);
      } else {
        disk := disk.(vault := Some(contents), sealed := vaultText);
      }
      trail := trail + [disk];
    }

    /** Stores a secret. Whatever happens, no other account is touched. */
    method Set(store: StoreId, key: Key, value: Secret) returns (ok: bool)
      requires OnTrail() && Reaches(store)
      modifies this`faults, this`disk, this`trail
      ensures OnTrail() && Reaches(store)
      ensures Within(old(disk), store, old(trail), trail)
      ensures old(disk).vault.Some? ==> disk.vault.Some? && disk.sealed == old(disk).sealed
      ensures SameBut(Contents(old(disk), store), Contents(disk, store), [key])
      ensures ok <==> Succeeds(old(faults), 0)
      ensures ok ==> key in Contents(disk, store)
      ensures ok ==> Contents(disk, store)[key] == Stored(Upcoming(old(faults), 0), value)
      ensures faults == Later(old(faults), 1)
    {
      var fault := TakeFault();
      match fault {
        case Works => Write(store, Contents(disk, store)[key := value]);
        case Corrupts(stored) => Write(store, Contents(disk, store)[key := stored]);
        case Fails(applied) => if applied { Write(store, Contents(disk, store)[key := value]); }
      }
      ok := !fault.Fails?;
    }

    /** Deletes a secret, unless that is refused. */
    method Delete(store: StoreId, key: Key)
      requires OnTrail() && Reaches(store)
      modifies this`faults, this`disk, this`trail
      ensures OnTrail() && Reaches(store)
      ensures Within(old(disk), store, old(trail), trail)
      ensures old(disk).vault.Some? ==> disk.vault.Some? && disk.sealed == old(disk).sealed
      ensures Contents(disk, store) == if Denied(old(faults), 0) then Contents(old(disk), store)
                                       else Contents(old(disk), store) - {key}
      ensures faults == Later(old(faults), 1)
    {
      var fault := TakeFault();
      if !fault.Fails? || fault.applied {
        Write(store, Contents(disk, store) - {key});
      }
    }

    /** Opens the vault file with a passphrase, creating an empty one under it when
        there is none. */
    method OpenVaultStore(passphrase: string) returns (ok: bool)
      requires OnTrail()
      modifies this`faults, this`disk, this`trail, this`vaultText
      ensures OnTrail()
      ensures disk == if old(disk).vault.None? && !Denied(old(faults), 0)
                      then old(disk).(vault := Some(map[]), sealed := passphrase) else old(disk)
      ensures trail == if disk == old(disk) then old(trail) else old(trail) + [disk]
      ensures Within(old(disk), Vault, old(trail), trail)
      ensures ok <==> Succeeds(old(faults), 0) && Opens(old(disk).Seal(), passphrase)
      ensures vaultText == if ok then passphrase else old(vaultText)
      ensures ok ==> disk.Seal() == Some(passphrase)
      ensures faults == Later(old(faults), 1)
    {
      var fault := TakeFault();
      ok := !fault.Fails? && (disk.vault.None? || disk.sealed == passphrase);
      if disk.vault.None? && (!fault.Fails? || fault.applied) {
        disk := disk.(vault := Some(map[]), sealed := passphrase);
        trail := trail + [disk];
      }
      if ok {
        vaultText := passphrase;
      }
    }

    method EraseVaultFile()
      requires OnTrail()
      modifies this`faults, this`disk, this`trail
      ensures OnTrail()
      ensures trail == if disk == old(disk) then old(trail) else old(trail) + [disk]
      ensures Within(old(disk), Vault, old(trail), trail)
      ensures disk == if Upcoming(old(faults), 0) == Fails(false) then old(disk) else old(disk).(vault := None)
      ensures faults == Later(old(faults), 1)
    {
      var fault := TakeFault();
      if disk.vault.Some? && (!fault.Fails? || fault.applied) {
        disk := disk.(vault := None);
        trail := trail + [disk];
      }
    }

    method TakeSettingsFault() returns (fault: FlagFault)
      modifies this`settingsFaults
      ensures fault == Coming(old(settingsFaults), 0)
      ensures settingsFaults == if old(settingsFaults) == [] then [] else old(settingsFaults)[1..]
    {
      if settingsFaults == [] {
        return Written;
      }
      fault := settingsFaults[0];
      settingsFaults := settingsFaults[1..];
    }

    /** Re-reads the settings, then replaces them if the flag differs. */
    method SetVaultEnabledFlag(enabled: bool) returns (ok: bool)
      requires OnTrail()
      modifies this`settingsFaults, this`disk, this`trail
      ensures OnTrail()
      ensures ok <==> FlagAccepted(old(settingsFaults), old(disk).vaultEnabled, enabled)
      ensures disk == old(disk).(vaultEnabled := FlagAfter(old(settingsFaults), old(disk).vaultEnabled, enabled))
      ensures trail == if disk == old(disk) then old(trail) else old(trail) + [disk]
      ensures NoneTorn(old(settingsFaults)) ==> NoneTorn(settingsFaults)
    {
      var reload := TakeSettingsFault();
      if !reload.Written? {
        return false;
      }
      if disk.vaultEnabled == enabled {
        return true;
      }
      var replace := TakeSettingsFault();
      if !replace.Refused? {
        disk := disk.(vaultEnabled := enabled);
        trail := trail + [disk];
      }
      ok := replace.Written?;
    }

    // -------------------------------------------------------------------
    // Passphrases
    // -------------------------------------------------------------------

    /** Moves a passphrase into protected memory, under a fresh identity. */
    method ProtectPassphrase(passphrase: string) returns (guarded: Option<Protected>)
      modifies this`faults, this`handedOut
      ensures guarded.Some? ==> guarded.value.text == passphrase && old(handedOut) <= guarded.value.id < handedOut
      ensures handedOut >= old(handedOut)
      ensures old(OthersRevoked()) ==> OthersRevoked() && (guarded.Some? ==> guarded.value.id !in installed)
      ensures guarded.Some? <==> FitsProtection(passphrase) && Succeeds(old(faults), 0)
      ensures faults == if FitsProtection(passphrase) then Later(old(faults), 1) else old(faults)
    {
      if passphrase == "" || |passphrase| > MAX_VAULT_PASSPHRASE_BYTES {
        return None;
      }
      var fault := TakeFault();
      if fault.Fails? {
        return None;
      }
      guarded := Some(Protected(handedOut, passphrase));
      handedOut := handedOut + 1;
    }

    method ReplaceVaultPassphrase(next: Option<Protected>)
      requires OthersRevoked()
      requires next.Some? ==> next.value.id < handedOut && next.value.id !in installed
      modifies this`vaultPassphrase, this`installed, this`revoked
      ensures OthersRevoked() && vaultPassphrase == next
      ensures installed == old(installed) + (if next.Some? then {next.value.id} else {})
    {
      if vaultPassphrase.Some? {
        revoked := revoked + {vaultPassphrase.value.id};
      }
      vaultPassphrase := next;
      if next.Some? {
        installed := installed + {next.value.id};
      }
    }

    // -------------------------------------------------------------------
    // Copying
    // -------------------------------------------------------------------

    /** Copies one account and reads it back. */
    method CopyOne(from: StoreId, to: StoreId, key: Key) returns (ok: bool)
      requires OnTrail() && from != to && Reaches(to)
      modifies this`faults, this`disk, this`trail
      ensures OnTrail() && Within(old(disk), to, old(trail), trail) && Fits() == old(Fits())
      ensures ok ==> Contents(disk, to) == Contents(old(disk), to) + Pick(Contents(disk, from), [key])
      ensures old(disk).vault.Some? ==> disk.vault.Some? && disk.sealed == old(disk).sealed
      ensures SameBut(Contents(old(disk), to), Contents(disk, to), [key])
      ensures ok <==> Reaches(from) && OneSucceeds(Contents(old(disk), from), key, old(faults))
      ensures Reaches(from) ==> faults == Later(old(faults), OneLength(Contents(old(disk), from), key, old(faults)))
    {
      hide SameBut, Pick;
      ghost var source, was := Contents(disk, from), Contents(disk, to);
      SameButRefl(was, [key]);
      var value := Get(from, key);
      if value.Err? {
        return false;
      }
      ok := true;
      if value.value.Some? {
        ok := Set(to, key, value.value.value);
        if !ok {
          return;
        }
        var copied := Get(to, key);
        ok := copied.Ok? && copied.value == value.value;
      }
      if ok {
        CopiedOne(was, Contents(disk, to), source, key);
      }
    }

    /** Copies accounts one by one, reading each back. On success the target
        holds exactly its old contents overlaid with the source's accounts. */
    method CopyAndVerify(from: StoreId, to: StoreId, accounts: seq<Key>) returns (ok: bool)
      requires OnTrail() && from != to && Reaches(to)
      modifies this`faults, this`disk, this`trail
      ensures OnTrail() && Within(old(disk), to, old(trail), trail) && Fits() == old(Fits())
      ensures ok ==> Contents(disk, to) == Contents(old(disk), to) + Pick(Contents(disk, from), accounts)
      ensures Contents(disk, from) == Contents(old(disk), from)
      ensures old(disk).vault.Some? ==> disk.vault.Some? && disk.sealed == old(disk).sealed
      ensures SameBut(Contents(old(disk), to), Contents(disk, to), accounts)
      ensures ok <==>
                (accounts == [] || Reaches(from)) && ListSucceeds(Contents(old(disk), from), accounts, old(faults))
      ensures Reaches(from) ==>
                faults == Later(old(faults), ListLength(Contents(old(disk), from), accounts, old(faults)))
    {
      hide Within, SameBut, Pick, ListSucceeds, ListLength, OneSucceeds, OneLength, Later, Opens;
      ghost var base, start := disk, faults;
      ghost var source, target := Contents(disk, from), Contents(disk, to);
      SameButRefl(target, accounts);
      WithinRefl(base, to, trail);
      PickNothing(target, source, accounts);
      assert accounts[0..] == accounts;
      ok := true;
      for n := 0 to |accounts|
        invariant OnTrail() && Within(base, to, old(trail), trail) && Fits() == old(Fits())
        invariant Contents(disk, from) == source
        invariant old(disk).vault.Some? ==> disk.vault.Some? && disk.sealed == old(disk).sealed
        invariant Contents(disk, to) == target + Pick(source, accounts[..n])
        invariant SameBut(target, Contents(disk, to), accounts)
        invariant ok && (0 < n ==> Reaches(from))
        invariant ListSucceeds(source, accounts, start) <==> ListSucceeds(source, accounts[n..], faults)
        invariant Later(faults, ListLength(source, accounts[n..], faults))
               == Later(start, ListLength(source, accounts, start))
      {
        ghost var mid, left := trail, faults;
        ghost var reached := Contents(disk, to);
        ok := CopyOne(from, to, accounts[n]);
        ListStep(source, accounts, n, left);
        WithinJoin(base, to, old(trail), mid, trail);
        SameButJoin(target, reached, Contents(disk, to), accounts, n);
        if !ok {
          return;
        }
        PickSnoc(target, source, accounts, n);
        LaterLater(left, OneLength(source, accounts[n], left), ListLength(source, accounts[n + 1..], faults));
      }
      assert accounts[..|accounts|] == accounts;
      ListEnd(source, accounts[|accounts|..], faults);
    }

    /** The accounts, then the three sync secrets. */
    method CopyEverything(from: StoreId, to: StoreId, accounts: seq<Key>) returns (ok: bool)
      requires OnTrail() && from != to && Reaches(to)
      modifies this`faults, this`disk, this`trail
      ensures OnTrail() && Within(old(disk), to, old(trail), trail) && Fits() == old(Fits())
      ensures ok ==> Contents(disk, to) == Contents(old(disk), to) + Needed(Contents(old(disk), from), accounts)
      ensures Contents(disk, from) == Contents(old(disk), from)
      ensures old(disk).vault.Some? ==> disk.vault.Some? && disk.sealed == old(disk).sealed
      ensures SameBut(Contents(old(disk), to), Contents(disk, to), accounts + SYNC_KEYS)
      ensures ok <==> Reaches(from) && CopySucceeds(Contents(old(disk), from), accounts, old(faults))
      ensures Reaches(from) ==>
                faults == Later(old(faults), CopyLength(Contents(old(disk), from), accounts, old(faults)))
    {
      hide Pick, SameBut, Needed, Within, ListSucceeds, ListLength, Later, Opens;
      ghost var base, start, ahead := disk, trail, faults;
      ghost var source, target := Contents(disk, from), Contents(disk, to);
      ok := CopyAndVerify(from, to, accounts);
      ghost var mid, reached := trail, Contents(disk, to);
      SameButRefl(reached, SYNC_KEYS);
      if ok {
        ghost var left := faults;
        ok := CopyAndVerify(from, to, SYNC_KEYS);
        WithinJoin(base, to, start, mid, trail);
        PickTwice(target, source, accounts);
        LaterLater(ahead, ListLength(source, accounts, ahead), ListLength(source, SYNC_KEYS, left));
      }
      SameButMore(target, reached, Contents(disk, to), accounts, SYNC_KEYS);
    }

    /** Removes what it can from a store that nobody relies on any more: exactly the
        accounts whose deletion is not refused. */
    method Cleanup(store: StoreId, accounts: seq<Key>)
      requires OnTrail() && Reaches(store)
      modifies this`faults, this`disk, this`trail
      ensures OnTrail() && Within(old(disk), store, old(trail), trail)
      ensures old(disk).vault.Some? ==> disk.vault.Some? && disk.sealed == old(disk).sealed
      ensures Contents(disk, store) == CleanedUp(Contents(old(disk), store), accounts, old(faults))
    {
      hide Within, CleanedUp, Denied, Opens;
      ghost var base, start, was, ahead := disk, trail, Contents(disk, store), faults;
      WithinRefl(base, store, trail);
      NothingCleaned(was, accounts, ahead);
      LaterLater(ahead, 0, 0);
      for n := 0 to |accounts|
        invariant OnTrail() && Reaches(store) && Within(base, store, start, trail)
        invariant old(disk).vault.Some? ==> disk.vault.Some? && disk.sealed == old(disk).sealed
        invariant Contents(disk, store) == CleanedUp(was, accounts[..n], ahead)
        invariant faults == Later(ahead, n)
      {
        ghost var mid := trail;
        LaterLater(ahead, n, 0);
        LaterLater(ahead, n, 1);
        Delete(store, accounts[n]);
        WithinJoin(base, store, start, mid, trail);
        CleanedOne(was, accounts, n, ahead);
      }
      assert accounts[..|accounts|] == accounts;
    }

    // -------------------------------------------------------------------
    // Migration
    // -------------------------------------------------------------------

    /** Opens the vault and fills it; a vault that could not be filled goes. */
    method CopyIntoVault(passphrase: string, accounts: Option<seq<Key>>) returns (ready: bool, copied: bool)
      requires OnTrail()
      modifies this`faults, this`disk, this`trail, this`vaultText
      ensures OnTrail() && disk.platform == old(disk).platform
      ensures Within(old(disk), Vault, old(trail), trail)
      ensures ready <==> Succeeds(old(faults), 0) && Opens(old(disk).Seal(), passphrase)
      ensures copied <==> ready && accounts.Some? && CopySucceeds(disk.platform, accounts.value, Later(old(faults), 1))
      ensures copied ==> disk.vault == Some(Contents(old(disk), Vault) + Needed(disk.platform, accounts.value))
      ensures copied ==>
                faults == Later(old(faults), 1 + CopyLength(disk.platform, accounts.value, Later(old(faults), 1)))
      ensures ready && !copied && accounts.Some?
              && !Denied(old(faults), 1 + CopyLength(disk.platform, accounts.value, Later(old(faults), 1))) ==>
                disk.vault.None?
      ensures ready && accounts.None? ==> disk.vault == Some(Contents(old(disk), Vault))
      ensures !ready && (old(disk).vault.Some? || Denied(old(faults), 0)) ==> disk == old(disk)
      ensures ready ==> vaultText == passphrase
      ensures ready && disk.vault.Some? ==> disk.sealed == passphrase
    {
      hide Needed, SameBut, Within, Pick, CopySucceeds, CopyLength, Upcoming, Later, Succeeds, Denied;
      ghost var base, start, ahead := disk, trail, faults;
      ready := OpenVaultStore(passphrase);
      ghost var opening := trail;
      copied := false;
      if ready && accounts.Some? {
        copied := FillVault(accounts.value);
        WithinJoin(base, Vault, start, opening, trail);
        LaterLater(ahead, 1, CopyLength(disk.platform, accounts.value, Later(ahead, 1)));
        DeniedLater(ahead, 1, CopyLength(disk.platform, accounts.value, Later(ahead, 1)));
      }
    }

    method FillVault(accounts: seq<Key>) returns (copied: bool)
      requires OnTrail() && disk.vault.Some? && Fits()
      modifies this`faults, this`disk, this`trail
      ensures OnTrail() && disk.platform == old(disk).platform
      ensures Within(old(disk), Vault, old(trail), trail)
      ensures copied <==> CopySucceeds(disk.platform, accounts, old(faults))
      ensures copied ==> disk.vault == Some(Contents(old(disk), Vault) + Needed(disk.platform, accounts))
      ensures copied ==> faults == Later(old(faults), CopyLength(disk.platform, accounts, old(faults)))
      ensures !copied && !Denied(old(faults), CopyLength(disk.platform, accounts, old(faults))) ==> disk.vault.None?
      ensures disk.vault.Some? ==> disk.sealed == old(disk).sealed
    {
      hide Needed, SameBut, Within, Pick, CopySucceeds, CopyLength, Later, Succeeds;
      ghost var base, start, ahead := disk, trail, faults;
      copied := CopyEverything(Platform, Vault, accounts);
      ghost var copying := trail;
      if !copied {
        LaterLater(ahead, CopyLength(disk.platform, accounts, ahead), 0);
        EraseVaultFile();
        WithinJoin(base, Vault, start, copying, trail);
      }
    }

    /** The running process goes first, then the flag, then the platform copies. If
        the flag is not accepted, the process goes back, and what was put into the
        vault is destroyed. */
    method SwitchToVault(next: Protected, accounts: seq<Key>, ghost need: map<Key, Secret>) returns (persisted: bool)
      requires Valid() && vaultMode.Disabled? && disk.vault.Some? && vaultText == next.text
      requires next.id < handedOut && next.id !in installed
      requires Holds(disk.platform, need) && Holds(disk.vault.value, need)
      modifies this
      ensures Valid() && |old(trail)| <= |trail| && trail[..|old(trail)|] == old(trail)
      ensures persisted <==> FlagAccepted(old(settingsFaults), old(disk).vaultEnabled, true)
      ensures disk.vaultEnabled == FlagAfter(old(settingsFaults), old(disk).vaultEnabled, true)
      ensures persisted ==> vaultMode.Unlocked? && vaultPassphrase == Some(next) && disk.vault == old(disk).vault
      ensures persisted ==> disk.platform == CleanedUp(old(disk).platform, accounts + SYNC_KEYS, old(faults))
      ensures !persisted ==> vaultMode.Disabled? && vaultPassphrase == old(vaultPassphrase)
      ensures !persisted ==> disk.platform == old(disk).platform
      ensures !persisted ==> disk.vault == if Denied(old(faults), 0) then old(disk).vault else None
      ensures disk.vault.Some? ==> disk.sealed == old(disk).sealed
      ensures !old(disk).vaultEnabled ==>
        (AllSafe(trail, |old(trail)|, need) <==>
         || FlagAccepted(old(settingsFaults), false, true)
         || !FlagAfter(old(settingsFaults), false, true)
         || Denied(old(faults), 0)
         || need == map[])
      ensures NoneTorn(old(settingsFaults)) ==> NoneTorn(settingsFaults)
    {
      hide SameBut, AllSafe, CrashSafe, Holds, Within, NoneTorn, FlagAccepted, FlagAfter, OthersRevoked, Upcoming;
      hide CleanedUp, Denied, Opens;
      ghost var base, start := disk, trail;
      NothingNew(base, start, need);
      BothSelected(base, need);
      secrets, vaultMode := VaultStore, Unlocked;
      FlagOutcomes(settingsFaults, base.vaultEnabled, true);
      persisted := SetVaultEnabledFlag(true);
      ghost var flagging, flagged := trail, disk;
      BothSelected(flagged, need);
      SafeStep(start, flagged, flagging, |start|, need);
      if !persisted {
        UndoSwitch();
        if !disk.vaultEnabled {
          StillSafe(base, Vault, start, trail, |start|, need);
        } else {
          Erased(flagging, disk, trail, |start|, need);
        }
        return;
      }
      ReplaceVaultPassphrase(Some(next));
      Cleanup(Platform, accounts + SYNC_KEYS);
      StillSafe(flagged, Platform, flagging, trail, |start|, need);
    }

    /** Back to the platform store, without the vault that was to replace it. */
    method UndoSwitch()
      requires OnTrail()
      modifies this`secrets, this`vaultMode, this`faults, this`disk, this`trail
      ensures OnTrail() && secrets == PlatformStore && vaultMode == Disabled
      ensures disk == if Denied(old(faults), 0) then old(disk) else old(disk).(vault := None)
      ensures trail == if disk == old(disk) then old(trail) else old(trail) + [disk]
      ensures Within(old(disk), Vault, old(trail), trail)
    {
      secrets, vaultMode := PlatformStore, Disabled;
      EraseVaultFile();
    }

    /** Moves the credentials into a new vault: copy and verify, switch, persist
        the flag, clean up. `accounts` is None when they cannot be listed. How it
        ends is decided by the inputs and the faults in store. */
    method EnableVault(passphrase: string, accounts: Option<seq<Key>>) returns (result: EnableResult)
      requires Valid()
      modifies this
      ensures Valid()
      ensures result == EnableOutcome(old(vaultMode), old(disk).platform, old(disk).vaultEnabled, old(disk).Seal(),
                                      passphrase, accounts, old(faults), old(settingsFaults))
      ensures result.Enabled? ==>
                && vaultMode.Unlocked? && vaultPassphrase.value.text == passphrase
                && vaultPassphrase.value.id !in old(installed) && disk.Seal() == Some(passphrase)
      ensures result.Enabled? ==>
                disk.vault == Some(Contents(old(disk), Vault) + Needed(old(disk).platform, accounts.value))
      // The platform store keeps only those whose deletion is refused.
      ensures result.Enabled? ==>
                var used := BeforeEnd(old(disk).platform, accounts.value, old(faults));
                disk.platform == CleanedUp(old(disk).platform, accounts.value + SYNC_KEYS, Later(old(faults), used))
      ensures !result.Enabled? ==> disk.platform == old(disk).platform
      ensures !result.Enabled? ==> vaultMode == old(vaultMode) && vaultPassphrase == old(vaultPassphrase)
      ensures disk.vaultEnabled == if result.Enabled? || result.NotPersisted?
                                   then FlagAfter(old(settingsFaults), old(disk).vaultEnabled, true)
                                   else old(disk).vaultEnabled
      // What was put into the vault goes, unless erasing it is refused.
      ensures (result.NotPersisted? || result.NotCopied?)
              && !Denied(old(faults), BeforeEnd(old(disk).platform, accounts.value, old(faults))) ==>
                disk.vault.None?
      ensures result.AlreadyEnabled? || result.BadPassphrase? ==> disk == old(disk)
      ensures result.NotCollected? ==> disk.vault == Some(Contents(old(disk), Vault))
      // However it ends, the running process goes on with everything needed.
      ensures old(vaultMode).Disabled? ==> Holds(InUse(), MigrationNeeds(old(disk).platform, accounts))
      // A crash at some point loses a needed secret exactly in this case.
      ensures old(InStep()) ==>
                (AllSafe(trail, |old(trail)|, MigrationNeeds(old(disk).platform, accounts)) <==>
                 !Strands(old(vaultMode), old(disk).platform, old(disk).Seal(), passphrase, accounts, old(faults),
                          old(settingsFaults)))
      ensures old(InStep()) ==>
                (InStep() <==> !(result.NotPersisted? && FlagAfter(old(settingsFaults), false, true)))
      ensures NoneTorn(old(settingsFaults)) ==> NoneTorn(settingsFaults)
    {
      hide Needed, SameBut, AllSafe, CrashSafe, Holds, Within, Pick, NoneTorn, MigrationNeeds, OthersRevoked;
      hide FlagAccepted, FlagAfter, CopySucceeds, CopyLength, Succeeds, Upcoming, Later, CleanedUp, Opens, Denied;
      ghost var base, start, ahead := disk, trail, faults;
      ghost var need := MigrationNeeds(disk.platform, accounts);
      NothingNew(base, start, need);
      if vaultMode != Disabled {
        return AlreadyEnabled;
      }
      NeedsAtStart(base, disk.platform, accounts);
      var next := ProtectPassphrase(passphrase);
      if next.None? {
        return BadPassphrase;
      }
      LaterLater(ahead, 1, 0);
      LaterLater(ahead, 1, 1);
      var ready, copied := CopyIntoVault(passphrase, accounts);
      ghost var copying := trail;
      StillSafe(base, Vault, start, copying, |start|, need);
      SucceedsLater(ahead, 1, 0);
      if !ready {
        return NotOpened;
      }
      if accounts.None? {
        return NotCollected;
      }
      LaterLater(ahead, 1, 1 + CopyLength(base.platform, accounts.value, Later(ahead, 2)));
      DeniedLater(ahead, 1, 1 + CopyLength(base.platform, accounts.value, Later(ahead, 2)));
      if !copied {
        return NotCopied;
      }
      VaultTakesOver(base.platform, disk.vault.value, VaultContents(base), accounts.value);
      DeniedLater(ahead, BeforeEnd(base.platform, accounts.value, ahead), 0);
      FlagOutcomes(settingsFaults, base.vaultEnabled, true);
      var persisted := SwitchToVault(next.value, accounts.value, need);
      if !base.vaultEnabled {
        SafeJoin(copying, trail, |start|, need);
      }
      result := if persisted then Enabled else NotPersisted;
    }

    /** Switches to the platform store and erases the vault, if it can. */
    method LeaveVault()
      requires Valid()
      modifies this
      ensures Valid() && vaultMode.Disabled? && vaultPassphrase == None && settingsFaults == old(settingsFaults)
      ensures disk == if Denied(old(faults), 0) then old(disk) else old(disk).(vault := None)
      ensures Within(old(disk), Vault, old(trail), trail)
    {
      secrets := PlatformStore;
      ReplaceVaultPassphrase(None);
      vaultMode := Disabled;
      EraseVaultFile();
    }

    /** Moves the credentials back. The flag goes first, so that the running
        process never switches to a store a restart would not select. */
    method DisableVault(accounts: Option<seq<Key>>) returns (result: DisableResult)
      requires Valid()
      modifies this
      ensures Valid()
      ensures result == DisableOutcome(old(vaultMode), Contents(old(disk), Vault), old(disk).vaultEnabled, old(Fits()),
                                       accounts, old(faults), old(settingsFaults))
      ensures result.DisabledNow? ==> vaultMode.Disabled?
      ensures result.DisabledNow? ==>
                disk.platform == old(disk).platform + Needed(Contents(old(disk), Vault), accounts.value)
      // The vault file goes, unless erasing it is refused.
      ensures result.DisabledNow? ==>
                var used := CopyLength(Contents(old(disk), Vault), accounts.value, old(faults));
                disk.vault == (if Denied(old(faults), used) then old(disk).vault else None)
      ensures !result.DisabledNow? ==> vaultMode == old(vaultMode) && vaultPassphrase == old(vaultPassphrase)
      ensures !result.DisabledNow? ==> disk.vault == old(disk).vault
      ensures disk.sealed == old(disk).sealed
      ensures disk.vaultEnabled == if result.DisabledNow? || result.FlagNotCleared?
                                   then FlagAfter(old(settingsFaults), old(disk).vaultEnabled, false)
                                   else old(disk).vaultEnabled
      ensures result.NotUnlocked? || result.NotListed? ==> disk == old(disk)
      ensures accounts.Some? ==> SameBut(old(disk).platform, disk.platform, accounts.value + SYNC_KEYS)
      // However it ends, the running process goes on with everything needed.
      ensures old(vaultMode).Unlocked? ==> Holds(InUse(), MigrationNeeds(Contents(old(disk), Vault), accounts))
      // No crash, at any point, loses a needed secret.
      ensures old(InStep()) ==> AllSafe(trail, |old(trail)|, MigrationNeeds(Contents(old(disk), Vault), accounts))
      // The process and the flag part ways exactly in this case.
      ensures old(InStep()) ==>
                (InStep() <==>
                 !Divides(old(vaultMode), Contents(old(disk), Vault), old(Fits()), accounts, old(faults),
                          old(settingsFaults)))
      ensures NoneTorn(old(settingsFaults)) ==> NoneTorn(settingsFaults)
    {
      hide Needed, SameBut, AllSafe, CrashSafe, Holds, Within, NoneTorn, MigrationNeeds, OthersRevoked, Opens;
      hide FlagAccepted, FlagAfter, CopySucceeds, CopyLength, Upcoming, Later, Denied;
      ghost var base, start, stored, ahead := disk, trail, Contents(disk, Vault), faults;
      ghost var need := MigrationNeeds(stored, accounts);
      NothingNew(base, start, need);
      if accounts.Some? {
        SameButRefl(disk.platform, accounts.value + SYNC_KEYS);
      }
      if vaultMode != Unlocked {
        return NotUnlocked;
      }
      NeedsAtStart(base, stored, accounts);
      if accounts.None? {
        return NotListed;
      }
      var copied := CopyEverything(Vault, Platform, accounts.value);
      ghost var copying := trail;
      StillSafe(base, Platform, start, copying, |start|, need);
      if !copied {
        return NotCopiedBack;
      }
      VaultTakesOver(stored, disk.platform, base.platform, accounts.value);
      FlagOutcomes(settingsFaults, base.vaultEnabled, false);
      var persisted := SetVaultEnabledFlag(false);
      ghost var flagging, flagged := trail, disk;
      if base.vaultEnabled {
        BothSelected(flagged, need);
        SafeStep(copying, flagged, flagging, |start|, need);
      }
      if !persisted {
        return FlagNotCleared;
      }
      DeniedLater(ahead, CopyLength(stored, accounts.value, ahead), 0);
      LeaveVault();
      StillSafe(flagged, Vault, flagging, trail, |start|, need);
      result := DisabledNow;
    }

    // -------------------------------------------------------------------
    // The rest of the vault's life
    // -------------------------------------------------------------------

    /** A fresh process. The flag on disk is all it knows about the vault. */
    constructor (found: Disk, faults: seq<Fault>, settingsFaults: seq<FlagFault>)
      ensures Valid() && InStep() && disk == found
      ensures vaultMode == (if found.vaultEnabled then Locked else Disabled)
      ensures this.faults == faults && this.settingsFaults == settingsFaults
    {
      disk := found;
      secrets := if found.vaultEnabled then LockedStore else PlatformStore;
      vaultMode := if found.vaultEnabled then Locked else Disabled;
      vaultPassphrase, vaultText := None, "";
      this.faults, this.settingsFaults := faults, settingsFaults;
      trail, handedOut, installed, revoked := [found], 0, {}, {};
    }

    /** Holds the vault open under a passphrase, or locked under none. */
    method HoldVault(next: Option<Protected>)
      requires OnTrail() && OthersRevoked()
      requires next.Some? ==> next.value.id < handedOut && next.value.id !in installed && next.value.text == vaultText
      modifies this`secrets, this`vaultMode, this`vaultPassphrase, this`installed, this`revoked
      ensures Valid() && vaultPassphrase == next
      ensures vaultMode == (if next.Some? then Unlocked else Locked)
      ensures next.None? ==> revoked == installed && installed == old(installed)
    {
      ReplaceVaultPassphrase(next);
      secrets := if next.Some? then VaultStore else LockedStore;
      vaultMode := if next.Some? then Unlocked else Locked;
    }

    method LockVault() returns (ok: bool)
      requires Valid()
      modifies this
      ensures Valid() && disk == old(disk) && trail == old(trail)
      ensures ok <==> !old(vaultMode).Disabled? && Succeeds(old(faults), 0)
      ensures vaultMode == (if old(vaultMode).Disabled? then Disabled else Locked)
      ensures vaultMode.Locked? ==> revoked == installed
      ensures installed == old(installed) && settingsFaults == old(settingsFaults)
    {
      hide OthersRevoked, Within;
      if vaultMode == Disabled {
        return false;
      }
      HoldVault(None);
      // Reporting whether the vault file exists may still fail.
      var fault := TakeFault();
      ok := !fault.Fails?;
    }

    /** Opens the vault with the passphrase of its file, and with no other. */
    method UnlockVault(passphrase: string) returns (ok: bool)
      requires Valid()
      modifies this
      ensures Valid() && disk == old(disk)
      ensures ok ==>
                && vaultMode.Unlocked? && vaultPassphrase.value.text == passphrase
                && vaultPassphrase.value.id !in old(installed)
                && disk.vault.Some? && Fits()
      ensures !ok ==> vaultMode == old(vaultMode) && vaultPassphrase == old(vaultPassphrase)
      ensures settingsFaults == old(settingsFaults)
      ensures ok <==> UnlockSucceeds(old(vaultMode), old(disk).Seal(), passphrase, old(faults))
      ensures ok ==> faults == Later(old(faults), 3)
    {
      hide OthersRevoked, Within, Later, FitsProtection;
      ghost var ahead := faults;
      if vaultMode == Disabled {
        return false;
      }
      var found := TakeFault();
      if found.Fails? || disk.vault.None? {
        return false;
      }
      SucceedsLater(ahead, 1, 0);
      var next := ProtectPassphrase(passphrase);
      if next.None? {
        return false;
      }
      ok := OpenVaultStore(passphrase);
      LaterLater(ahead, 1, 1);
      SucceedsLater(ahead, 2, 0);
      LaterLater(ahead, 2, 1);
      if ok {
        HoldVault(next);
      }
    }

    /** Rewrites the vault file under another passphrase, with the same contents, if
        the current one opens it. A missing file counts as an empty vault. */
    method RotatePassphrase(current: string, replacement: string) returns (ok: bool)
      requires OnTrail()
      modifies this`faults, this`disk, this`trail
      ensures OnTrail()
      ensures disk == if Opens(old(disk).Seal(), current) && !Denied(old(faults), 0)
                      then old(disk).(vault := Some(VaultContents(old(disk))), sealed := replacement) else old(disk)
      ensures ok <==> Opens(old(disk).Seal(), current) && Succeeds(old(faults), 0)
      ensures ok ==> disk.Seal() == Some(replacement)
      ensures faults == Later(old(faults), 1)
    {
      var fault := TakeFault();
      if disk.vault.Some? && disk.sealed != current {
        return false;
      }
      if !fault.Fails? || fault.applied {
        disk := disk.(vault := Some(Contents(disk, Vault)), sealed := replacement);
        trail := trail + [disk];
      }
      ok := !fault.Fails?;
    }

    method ChangeVaultPassphrase(current: string, replacement: string) returns (ok: bool)
      requires Valid()
      modifies this
      ensures Valid()
      ensures disk.platform == old(disk).platform && disk.vaultEnabled == old(disk).vaultEnabled
          && Contents(disk, Vault) == Contents(old(disk), Vault)
      ensures ok <==> ChangeSucceeds(old(vaultMode), old(disk).Seal(), current, replacement, old(faults))
      ensures ok ==>
                && vaultMode.Unlocked? && vaultPassphrase.value.text == replacement
                && vaultPassphrase.value.id !in old(installed)
      // The file is under the replacement exactly if it was rewritten.
      ensures disk.Seal() ==
              if ChangeReachesFile(old(vaultMode), old(disk).Seal(), current, replacement, old(faults))
                 && !Denied(old(faults), 2)
              then Some(replacement) else old(disk).Seal()
      // A failure leaves the session as it was, or locked with nothing held.
      ensures !ok ==>
                if ChangeReachesFile(old(vaultMode), old(disk).Seal(), current, replacement, old(faults))
                   && Succeeds(old(faults), 2)
                then vaultMode.Locked?
                else
                  && vaultMode == old(vaultMode) && vaultPassphrase == old(vaultPassphrase)
                  && vaultText == old(vaultText)
      // A session that could read its vault no longer can exactly in this case.
      ensures old(vaultMode.Unlocked? && Fits()) ==>
                (vaultMode.Unlocked? && !Fits() <==>
                 Strays(old(vaultMode), old(disk).Seal(), current, replacement, old(vaultText), old(faults)))
      ensures settingsFaults == old(settingsFaults)
    {
      hide OthersRevoked, Within, Succeeds, Later, FitsProtection, Denied;
      if vaultMode == Disabled {
        return false;
      }
      ghost var ahead := faults;
      var presented := ProtectPassphrase(current);
      if presented.None? {
        return false;
      }
      SucceedsLater(ahead, 1, 0);
      LaterLater(ahead, 1, 1);
      var next := ProtectPassphrase(replacement);
      if next.None? {
        return false;
      }
      SucceedsLater(ahead, 2, 0);
      DeniedLater(ahead, 2, 0);
      LaterLater(ahead, 2, 1);
      SucceedsLater(ahead, 3, 0);
      var rotated := RotatePassphrase(presented.value.text, next.value.text);
      DeniedOrNot(ahead, 2);
      if !rotated {
        return false;
      }
      ok := Reopen(next.value);
    }

    /** Gives up the held passphrase, then opens the vault under the next one or
        locks it. */
    method Reopen(next: Protected) returns (ok: bool)
      requires OnTrail() && OthersRevoked() && next.id < handedOut && next.id !in installed
      requires disk.Seal() == Some(next.text)
      modifies this`faults, this`disk, this`trail, this`vaultText
      modifies this`secrets, this`vaultMode, this`vaultPassphrase, this`installed, this`revoked
      ensures Valid() && (ok <==> Succeeds(old(faults), 0)) && disk == old(disk)
      ensures vaultMode == (if ok then Unlocked else Locked) && vaultPassphrase == if ok then Some(next) else None
    {
      hide OthersRevoked, Within, Succeeds;
      ReplaceVaultPassphrase(None);
      ok := OpenVaultStore(next.text);
      HoldVault(if ok then Some(next) else None);
    }

    /** Removes the business files and starts over. `removed` says whether the
        files could all be removed; those that went on failure are unknown. */
    method ClearLocalData(removed: bool, vaultGone: bool, settingsGone: bool) returns (ok: bool)
      requires Valid()
      modifies this
      ensures Valid() && disk.platform == old(disk).platform
      ensures ok ==> removed && disk.vault.None? && vaultMode.Disabled? && InStep() && revoked == installed
      ensures !ok ==> vaultMode == old(vaultMode) && vaultPassphrase == old(vaultPassphrase)
    {
      hide OthersRevoked;
      if removed || vaultGone {
        disk := disk.(vault := None);
        trail := trail + [disk];
      }
      if removed || settingsGone {
        disk := disk.(vaultEnabled := false);
        trail := trail + [disk];
      }
      if !removed {
        return false;
      }
      var reload := TakeFault();
      if reload.Fails? {
        return false;
      }
      // Dropping the old state revokes its passphrase.
      ReplaceVaultPassphrase(None);
      secrets := PlatformStore;
      vaultMode := Disabled;
      ok := true;
    }
  }

  /** A flag write that takes effect and still reports failure: enabling fails,
      the process goes on without a vault, and a restart selects an erased one. */
  method TornFlagStrandsCredentials() returns (data: MobileData)
    ensures data.Valid() && data.vaultMode.Disabled? && data.disk.vaultEnabled
    ensures !CrashSafe(data.disk, Needed(map["web_search" := "key"], ["web_search"]))
  {
    hide CopySucceeds;
    var before := Disk(map["web_search" := "key"], None, "", false);
    data := new MobileData(before, [], [Written, Torn]);
    FaultlessOutcomes(before.platform, map[], false, "passphrase", ["web_search"], [Written, Torn]);
    var result := data.EnableVault("passphrase", Some(["web_search"]));
    assert "web_search" in Needed(before.platform, ["web_search"]);
  }

  /** The same on the way back: disabling fails and the process goes on with the
      vault, while a restart selects the platform store. What the process saves
      from now on, a restart does not see. */
  method TornFlagDividesProcessAndRestart() returns (data: MobileData)
    ensures data.Valid() && data.vaultMode.Unlocked? && !data.disk.vaultEnabled && !data.InStep()
  {
    hide CopySucceeds;
    var before := Disk(map[], Some(map["web_search" := "key"]), "passphrase", true);
    data := new MobileData(before, [], [Written, Torn]);
    var unlocked := data.UnlockVault("passphrase");
    assert data.faults == [];
    FaultlessOutcomes(map[], before.vault.value, true, "passphrase", ["web_search"], [Written, Torn]);
    var result := data.DisableVault(Some(["web_search"]));
  }

  /** A change of the passphrase that fails after the file was rewritten: the session
      goes on as unlocked, but its passphrase no longer opens the vault. */
  method FailedChangeStraysFromItsFile() returns (data: MobileData)
    ensures data.Valid() && data.vaultMode.Unlocked? && !data.Fits()
    ensures data.vaultPassphrase.value.text == "old" && data.disk.Seal() == Some("new")
  {
    var before := Disk(map[], Some(map["web_search" := "key"]), "old", true);
    data := new MobileData(before, [Works, Works, Works, Works, Works, Fails(true)], []);
    var unlocked := data.UnlockVault("old");
    assert data.faults == [Works, Works, Fails(true)];
    assert Upcoming(data.faults, 2) == Fails(true);
    var changed := data.ChangeVaultPassphrase("old", "new");
  }
}
