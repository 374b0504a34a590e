/**
 * The warm-migration fixtures (`warm-migration-fixtures.ts`): an automatic setup that checks
 * the test VM for snapshots before and after each test without ever failing it, and the
 * `vsphereCleanup` helpers built on the snapshot checks.
 */
module WarmMigrationFixtures {
  import opened Wrappers
  import opened VsphereCleanup

  const DefaultWarmTestVm := "mtv-rhel8-warm-2disks2nics"
  const MaxAttempts := 12
  const PollIntervalMs := 10000

  /** JavaScript's `value || fallback` on an optional string: absent and empty both fall back. */
  function OrElse(value: Option<string>, fallback: string): (r: string)
    ensures value.Some? && value.value != "" ==> r == value.value
    ensures value.None? || value.value == "" ==> r == fallback
  {
    if value.Some? && value.value != "" then value.value else fallback
  }

  /**
   * The provider a helper uses: the caller's, else `VSPHERE_PROVIDER_NAME`, else `vs8`; it is
   * never empty.
   */
  function ResolveProvider(provider: Option<string>, providerEnv: Option<string>): (p: string)
    ensures p != ""
    ensures provider.Some? && provider.value != "" ==> p == provider.value
    ensures (provider.None? || provider.value == "") && providerEnv.Some? && providerEnv.value != "" ==>
              p == providerEnv.value
    ensures (provider.None? || provider.value == "") && (providerEnv.None? || providerEnv.value == "") ==>
              p == DefaultProviderName
  {
    OrElse(provider, OrElse(providerEnv, DefaultProviderName))
  }

  /** `vsphereCleanup.checkSnapshots`: the snapshot check against the resolved provider. */
  function CheckSnapshots(vmName: string, provider: Option<string>, providerEnv: Option<string>, inv: Inventory)
    : (r: Result<VsphereSnapshotInfo, SnapshotError>)
    ensures r.Success? ==> IsConsistent(r.value)
    ensures r.Failure? ==> IsLookupError(r.error)
    ensures r.Failure? && r.error.ProviderNotFound? ==> r.error.providerName != ""
  {
    CheckVMSnapshots(vmName, ResolveProvider(provider, providerEnv), DefaultNamespace, inv)
  }

  /** With an explicit, non-empty provider the environment variable plays no part. */
  lemma ExplicitProviderIgnoresEnvironment(vmName: string, provider: string, env1: Option<string>,
                                           env2: Option<string>, inv: Inventory)
    requires provider != ""
    ensures CheckSnapshots(vmName, Some(provider), env1, inv) == CheckSnapshots(vmName, Some(provider), env2, inv)
  {
  }

  /**
   * `vsphereCleanup.failIfSnapshots`: the check followed by `failIfSnapshotsExist`; it passes
   * exactly when the check succeeded and found no snapshots, and it throws the pre-existing
   * snapshots error exactly when the VM has them.
   */
  function FailIfSnapshots(vmName: string, provider: Option<string>, providerEnv: Option<string>, inv: Inventory)
    : (r: Result<(), SnapshotError>)
    ensures var c := CheckSnapshots(vmName, provider, providerEnv, inv);
            r.Success? <==> c.Success? && !c.value.hasSnapshots
    ensures var c := CheckSnapshots(vmName, provider, providerEnv, inv);
            c.Success? && c.value.hasSnapshots ==>
              r == Failure(PreexistingSnapshots(c.value.vmName, c.value.snapshotCount))
    ensures r.Failure? && r.error.PreexistingSnapshots? ==>
              var c := CheckSnapshots(vmName, provider, providerEnv, inv);
              c.Success? && c.value.hasSnapshots
    ensures var c := CheckSnapshots(vmName, provider, providerEnv, inv);
            c.Failure? ==> r == Failure(c.error)
  {
    match CheckSnapshots(vmName, provider, providerEnv, inv)
    case Failure(e) => Failure(e)
    case Success(info) => FailIfSnapshotsExist(info)
  }

  /** The events of attempt `i` of `waitForCleanup`: the first only checks. */
  function AttemptEvents(i: nat): seq<PollEvent> {
    if i == 0 then [Check] else [Refresh, Sleep(PollIntervalMs), Check]
  }

  /** The events of attempts 0 to n - 1, all completed. */
  function Attempts(n: nat): (t: seq<PollEvent>)
    ensures n > 0 ==> |t| == 3 * n - 2
    ensures n == 0 ==> t == []
  {
    if n == 0 then [] else Attempts(n - 1) + AttemptEvents(n - 1)
  }

  /**
   * After `n` completed attempts: `n` checks, one refresh and one 10 s sleep fewer, the first
   * event a check.
   */
  lemma {:induction false} AttemptsCounts(n: nat)
    requires n > 0
    ensures Attempts(n)[0] == Check
    ensures Occurrences(Attempts(n), Check) == n
    ensures Occurrences(Attempts(n), Refresh) == n - 1
    ensures Occurrences(Attempts(n), Sleep(PollIntervalMs)) == n - 1
  {
    if n == 1 {
      assert Attempts(1) == [Check] && [Check][1..] == [];
    } else {
      AttemptsCounts(n - 1);
      var e := [Refresh, Sleep(PollIntervalMs), Check];
      assert Attempts(n) == Attempts(n - 1) + e;
      OccurrencesAppend(Attempts(n - 1), e, Check);
      OccurrencesAppend(Attempts(n - 1), e, Refresh);
      OccurrencesAppend(Attempts(n - 1), e, Sleep(PollIntervalMs));
      OccurrencesOfThree(Refresh, Sleep(PollIntervalMs), Check, Check);
      OccurrencesOfThree(Refresh, Sleep(PollIntervalMs), Check, Refresh);
      OccurrencesOfThree(Refresh, Sleep(PollIntervalMs), Check, Sleep(PollIntervalMs));
    }
  }

  /**
   * The loop of `vsphereCleanup.waitForCleanup`, for a check `check(i)` of attempt `i` and a
   * refresh `refresh(k)` of the k-th refresh: at most 12 attempts; attempt 0 checks at once,
   * every later attempt refreshes the k-th time (k = attempt - 1), sleeps 10 s and checks.
   * `attempts` counts the attempts begun. It returns at the first check that finds no
   * snapshots, throws a timeout naming 120 s after 12 checks that found some, and otherwise
   * throws the error of the refresh or check that failed.
   */
  method PollForCleanup(vmName: string, check: nat -> Result<VsphereSnapshotInfo, SnapshotError>, refresh: nat -> Exec)
    returns (outcome: Result<(), SnapshotError>, trace: seq<PollEvent>, attempts: nat)
    requires forall k: nat :: check(k).Failure? ==> !check(k).error.StillHasSnapshotsAfterSeconds?
    ensures 1 <= attempts <= MaxAttempts
    ensures forall k :: 0 <= k < attempts - 1 ==> IsDirty(check(k))
    ensures outcome.Success? ==> trace == Attempts(attempts) && IsClean(check(attempts - 1))
    ensures outcome == Failure(StillHasSnapshotsAfterSeconds(vmName, 120)) <==>
              attempts == MaxAttempts && trace == Attempts(MaxAttempts) && IsDirty(check(MaxAttempts - 1))
    ensures trace != Attempts(attempts) ==>
              && attempts >= 2 && trace == Attempts(attempts - 1) + [Refresh]
              && refresh(attempts - 2).ExecFailed?
              && outcome == Failure(CommandFailed(refresh(attempts - 2).reason))
    ensures trace == Attempts(attempts) && !(attempts == MaxAttempts && IsDirty(check(MaxAttempts - 1))) ==>
              !IsDirty(check(attempts - 1))
              && outcome == if check(attempts - 1).Success? then Success(()) else Failure(check(attempts - 1).error)
    ensures forall k :: 0 <= k < attempts - 2 ==> refresh(k).Stdout?
    ensures trace == Attempts(attempts) && attempts >= 2 ==> refresh(attempts - 2).Stdout?
  {
    trace := [];
    for i := 0 to MaxAttempts
      invariant trace == Attempts(i)
      invariant forall k :: 0 <= k < i ==> IsDirty(check(k))
      invariant forall k :: 0 <= k < i - 1 ==> refresh(k).Stdout?
    {
      attempts := i + 1;
      if i > 0 {
        trace := trace + [Refresh];
        var refreshed := refresh(i - 1);
        if refreshed.ExecFailed? {
          assert |trace| != |Attempts(attempts)|;
          return Failure(CommandFailed(refreshed.reason)), trace, attempts;
        }
        trace := trace + [Sleep(PollIntervalMs)];
      }
      trace := trace + [Check];
      assert trace == Attempts(i + 1);
      var vmInfo := check(i);
      if vmInfo.Failure? {
        return Failure(vmInfo.error), trace, attempts;
      }
      if !vmInfo.value.hasSnapshots {
        return Success(()), trace, attempts;
      }
    }
    attempts := MaxAttempts;
    assert MaxAttempts * PollIntervalMs / 1000 == 120;
    outcome := Failure(StillHasSnapshotsAfterSeconds(vmName, MaxAttempts * PollIntervalMs / 1000));
  }

  /**
   * `vsphereCleanup.waitForCleanup`: the loop above, where attempt `i` runs
   * `checkVMSnapshots(vmName, provider || providerName)` against the inventory as it stands
   * then, and the k-th refresh is the k-th `oc annotate`.
   */
  method WaitForCleanup(vmName: string, provider: Option<string>, providerEnv: Option<string>, obs: Observations)
    returns (outcome: Result<(), SnapshotError>, trace: seq<PollEvent>, attempts: nat)
    ensures 1 <= attempts <= MaxAttempts
    ensures forall k :: 0 <= k < attempts - 1 ==>
              IsDirty(CheckSnapshots(vmName, provider, providerEnv, obs.inventory(k)))
    ensures outcome.Success? ==>
              trace == Attempts(attempts)
              && IsClean(CheckSnapshots(vmName, provider, providerEnv, obs.inventory(attempts - 1)))
    ensures outcome == Failure(StillHasSnapshotsAfterSeconds(vmName, 120)) <==>
              attempts == MaxAttempts && trace == Attempts(MaxAttempts)
              && IsDirty(CheckSnapshots(vmName, provider, providerEnv, obs.inventory(MaxAttempts - 1)))
    ensures trace != Attempts(attempts) ==>
              && attempts >= 2 && trace == Attempts(attempts - 1) + [Refresh]
              && obs.annotate(attempts - 2).ExecFailed?
              && outcome == Failure(CommandFailed(obs.annotate(attempts - 2).reason))
    ensures trace == Attempts(attempts)
            && !(attempts == MaxAttempts && IsDirty(CheckSnapshots(vmName, provider, providerEnv, obs.inventory(MaxAttempts - 1)))) ==>
              var c := CheckSnapshots(vmName, provider, providerEnv, obs.inventory(attempts - 1));
              !IsDirty(c) && outcome == if c.Success? then Success(()) else Failure(c.error)
    ensures forall k :: 0 <= k < attempts - 2 ==> obs.annotate(k).Stdout?
    ensures trace == Attempts(attempts) && attempts >= 2 ==> obs.annotate(attempts - 2).Stdout?
  {
    var check := (k: nat) => CheckSnapshots(vmName, provider, providerEnv, obs.inventory(k));
    assert forall k: nat :: check(k) == CheckSnapshots(vmName, provider, providerEnv, obs.inventory(k));
    outcome, trace, attempts := PollForCleanup(vmName, check, obs.annotate);
  }

  /** What `warmMigrationSetup` reports, in order, around the one run of the test body. */
  datatype SetupEvent =
    | PreexistingSnapshotsWarning(warning: SnapshotWarning)
    | CleanBeforeTest(vmName: string)
    | CouldNotCheckBefore(error: SnapshotError)
    | RunTest
    | SnapshotsCreatedDuringTest(warning: SnapshotWarning)
    | CouldNotCheckAfter(error: SnapshotError)

  /** The report of the check before the test; an error becomes a warning. */
  function BeforeTest(vmName: string, providerName: string, inv: Inventory): (log: seq<SetupEvent>)
    ensures |log| == 1 && log[0] != RunTest
    ensures var c := CheckVMSnapshots(vmName, providerName, DefaultNamespace, inv);
            && (c.Failure? ==> log == [CouldNotCheckBefore(c.error)])
            && (IsDirty(c) ==>
                  log == [PreexistingSnapshotsWarning(SnapshotWarning(c.value.vmName, c.value.snapshotCount, providerName))])
            && (IsClean(c) ==> log == [CleanBeforeTest(vmName)])
  {
    match CheckVMSnapshots(vmName, providerName, DefaultNamespace, inv)
    case Failure(e) => [CouldNotCheckBefore(e)]
    case Success(info) =>
      match LogSnapshotWarning(info, providerName)
      case Some(w) => [PreexistingSnapshotsWarning(w)]
      case None => [CleanBeforeTest(vmName)]
  }

  /** The report of the check after the test; a clean VM reports nothing. */
  function AfterTest(vmName: string, providerName: string, inv: Inventory): (log: seq<SetupEvent>)
    ensures |log| <= 1 && RunTest !in log
    ensures var c := CheckVMSnapshots(vmName, providerName, DefaultNamespace, inv);
            && (c.Failure? ==> log == [CouldNotCheckAfter(c.error)])
            && (IsDirty(c) ==>
                  log == [SnapshotsCreatedDuringTest(SnapshotWarning(c.value.vmName, c.value.snapshotCount, providerName))])
            && (IsClean(c) ==> log == [])
  {
    match CheckVMSnapshots(vmName, providerName, DefaultNamespace, inv)
    case Failure(e) => [CouldNotCheckAfter(e)]
    case Success(info) =>
      match LogSnapshotWarning(info, providerName)
      case Some(w) => [SnapshotsCreatedDuringTest(w)]
      case None => []
  }

  /**
   * `warmMigrationSetup`, for the VM named by `WARM_TEST_VM` (with its default) on the provider
   * named by `VSPHERE_PROVIDER_NAME` (default `vs8`), with `before` and `after` the cluster around
   * the test. It never fails: the test body runs exactly once, after the single report of the
   * first check; a failing check is only reported.
   */
  function WarmMigrationSetup(warmVmEnv: Option<string>, providerEnv: Option<string>,
                              before: Inventory, after: Inventory): (log: seq<SetupEvent>)
    ensures 2 <= |log| <= 3 && log[1] == RunTest
    ensures forall i :: 0 <= i < |log| && i != 1 ==> log[i] != RunTest
    ensures var vm, p := OrElse(warmVmEnv, DefaultWarmTestVm), OrElse(providerEnv, DefaultProviderName);
            var c := CheckVMSnapshots(vm, p, DefaultNamespace, before);
            && (c.Failure? ==> log[0] == CouldNotCheckBefore(c.error))
            && (IsDirty(c) ==>
                  log[0] == PreexistingSnapshotsWarning(SnapshotWarning(c.value.vmName, c.value.snapshotCount, p)))
            && (IsClean(c) ==> log[0] == CleanBeforeTest(vm))
    ensures var vm, p := OrElse(warmVmEnv, DefaultWarmTestVm), OrElse(providerEnv, DefaultProviderName);
            var c := CheckVMSnapshots(vm, p, DefaultNamespace, after);
            && (c.Failure? ==> log[2..] == [CouldNotCheckAfter(c.error)])
            && (IsDirty(c) ==>
                  log[2..] == [SnapshotsCreatedDuringTest(SnapshotWarning(c.value.vmName, c.value.snapshotCount, p))])
            && (IsClean(c) ==> log[2..] == [])
  {
    var vmName := OrElse(warmVmEnv, DefaultWarmTestVm);
    var providerName := OrElse(providerEnv, DefaultProviderName);
    BeforeTest(vmName, providerName, before) + [RunTest] + AfterTest(vmName, providerName, after)
  }
}
