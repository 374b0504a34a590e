/**
 * Snapshot checks against the migration inventory (`vsphere-cleanup.ts`). The `oc`, `curl` and
 * `jq` commands are answered by an `Inventory` oracle; the loops take further oracles for the
 * state at each check, the outcome of each refresh and each reading of the clock.
 */
module VsphereCleanup {
  import opened Wrappers
  import Text

  const DefaultProviderName := "vs8"
  const DefaultNamespace := "openshift-mtv"

  /** What the checks report about one VM. */
  datatype VsphereSnapshotInfo = VsphereSnapshotInfo(
    vmName: string,
    vmId: string,
    snapshotCount: int,
    hasSnapshots: bool)

  /** The derived field agrees with the count, and the count is a real (non-negative) length. */
  predicate IsConsistent(info: VsphereSnapshotInfo) {
    info.snapshotCount >= 0 && info.hasSnapshots == (info.snapshotCount > 0)
  }

  /** What a shell command printed on standard output, or that it failed. */
  datatype Exec = Stdout(text: string) | ExecFailed(reason: string)

  /** A VM record as the `jq` filter prints it, once parsed; `snapshots` may be absent. */
  datatype VmRecord = VmRecord(name: string, id: string, snapshots: Option<seq<string>>)

  /**
   * The cluster's answers at one moment: the provider UID by (provider, namespace), the
   * inventory route host by namespace, the bearer token, the VM query output by
   * (token, route, provider UID, VM name) as those commands printed them (the query trims the
   * token and UID itself), and `JSON.parse` of that output (None: it throws).
   */
  datatype Inventory = Inventory(
    providerUid: (string, string) -> Exec,
    inventoryRoute: string -> Exec,
    token: Exec,
    vmQuery: (string, string, string, string) -> Exec,
    parseVm: string -> Option<VmRecord>)

  /** Every way a snapshot check or wait fails. */
  datatype SnapshotError =
    | CommandFailed(reason: string)
    | ProviderNotFound(providerName: string)
    | InventoryRouteNotFound
    | VmNotFound(vmName: string)
    | InvalidVmData
    | PreexistingSnapshots(vmName: string, snapshotCount: int)
    | StillHasSnapshotsAfterMs(vmName: string, timeoutMs: int)
    | StillHasSnapshotsAfterSeconds(vmName: string, seconds: int)

  /** The errors a single check can throw: a failed command or one of the lookup gates. */
  predicate IsLookupError(e: SnapshotError) {
    e.CommandFailed? || e.ProviderNotFound? || e.InventoryRouteNotFound? || e.VmNotFound? || e.InvalidVmData?
  }

  /** The info built from a found record: the count is the list length, 0 when absent. */
  function InfoOf(rec: VmRecord): (info: VsphereSnapshotInfo)
    ensures info.vmName == rec.name && info.vmId == rec.id
    ensures rec.snapshots.Some? ==> info.snapshotCount == |rec.snapshots.value|
    ensures rec.snapshots.None? ==> info.snapshotCount == 0
    ensures IsConsistent(info)
  {
    var count := if rec.snapshots.Some? then |rec.snapshots.value| else 0;
    VsphereSnapshotInfo(rec.name, rec.id, count, rec.snapshots.Some? && |rec.snapshots.value| > 0)
  }

  /** The lookup chain of `checkVMSnapshots` up to the parsed VM record. */
  function LookupVm(vmName: string, providerName: string, namespace: string, inv: Inventory)
    : Result<VmRecord, SnapshotError>
  {
    match inv.providerUid(providerName, namespace)
    case ExecFailed(e) => Failure(CommandFailed(e))
    case Stdout(uid) =>
      if uid == "" then Failure(ProviderNotFound(providerName))
      else match inv.inventoryRoute(namespace)
        case ExecFailed(e) => Failure(CommandFailed(e))
        case Stdout(route) =>
          if route == "" then Failure(InventoryRouteNotFound)
          else match inv.token
            case ExecFailed(e) => Failure(CommandFailed(e))
            case Stdout(token) =>
              match inv.vmQuery(token, route, uid, vmName)
              case ExecFailed(e) => Failure(CommandFailed(e))
              case Stdout(out) =>
                if Text.AllSpace(out) then Failure(VmNotFound(vmName))
                else match inv.parseVm(out)
                  case None => Failure(InvalidVmData)
                  case Some(rec) => Success(rec)
  }

  /** The three presence gates of `checkVMSnapshots` hold, and no command failed. */
  predicate LookupSucceeds(vmName: string, providerName: string, namespace: string, inv: Inventory) {
    var uid := inv.providerUid(providerName, namespace);
    var route := inv.inventoryRoute(namespace);
    && uid.Stdout? && uid.text != ""
    && route.Stdout? && route.text != ""
    && inv.token.Stdout?
    && var out := inv.vmQuery(inv.token.text, route.text, uid.text, vmName);
       out.Stdout? && !Text.AllSpace(out.text) && inv.parseVm(out.text).Some?
  }

  /**
   * `checkVMSnapshots`: info only when the provider UID, the route and the VM record are all
   * present (and every command ran and the record parsed); otherwise the first failing step's
   * error. The info is the one built from the record found.
   */
  function CheckVMSnapshots(vmName: string, providerName: string, namespace: string, inv: Inventory)
    : (r: Result<VsphereSnapshotInfo, SnapshotError>)
    ensures r.Success? <==> LookupSucceeds(vmName, providerName, namespace, inv)
    ensures r.Success? ==> IsConsistent(r.value)
    ensures r.Success? ==> var found := LookupVm(vmName, providerName, namespace, inv);
              found.Success? && r.value == InfoOf(found.value)
    ensures r.Failure? ==> IsLookupError(r.error)
  {
    match LookupVm(vmName, providerName, namespace, inv)
    case Success(rec) => Success(InfoOf(rec))
    case Failure(e) => Failure(e)
  }

  /**
   * Which gate rejects: an empty provider UID, then an empty route, then blank VM output, each
   * with its own error.
   */
  lemma CheckVMSnapshotsGates(vmName: string, providerName: string, namespace: string, inv: Inventory)
    ensures inv.providerUid(providerName, namespace) == Stdout("") ==>
              CheckVMSnapshots(vmName, providerName, namespace, inv) == Failure(ProviderNotFound(providerName))
    ensures var uid := inv.providerUid(providerName, namespace);
            uid.Stdout? && uid.text != "" && inv.inventoryRoute(namespace) == Stdout("") ==>
              CheckVMSnapshots(vmName, providerName, namespace, inv) == Failure(InventoryRouteNotFound)
    ensures var uid, route := inv.providerUid(providerName, namespace), inv.inventoryRoute(namespace);
            uid.Stdout? && uid.text != "" && route.Stdout? && route.text != "" && inv.token.Stdout? ==>
              var out := inv.vmQuery(inv.token.text, route.text, uid.text, vmName);
              out.Stdout? && Text.AllSpace(out.text) ==>
                CheckVMSnapshots(vmName, providerName, namespace, inv) == Failure(VmNotFound(vmName))
  {
  }

  /** The placeholder `checkMultipleVMSnapshots` records for a VM whose check failed. */
  function FailedCheckInfo(vmName: string): VsphereSnapshotInfo {
    VsphereSnapshotInfo(vmName, "", -1, false)
  }

  /** The entry `checkMultipleVMSnapshots` keeps for one VM. */
  function CheckOrPlaceholder(vmName: string, providerName: string, namespace: string, inv: Inventory)
    : VsphereSnapshotInfo
  {
    match CheckVMSnapshots(vmName, providerName, namespace, inv)
    case Success(info) => info
    case Failure(_) => FailedCheckInfo(vmName)
  }

  /**
   * `checkMultipleVMSnapshots`: one result per name, in input order; a failed check yields
   * the placeholder for that name and the loop goes on.
   */
  method CheckMultipleVMSnapshots(vmNames: seq<string>, providerName: string, namespace: string, inv: Inventory)
    returns (results: seq<VsphereSnapshotInfo>)
    ensures |results| == |vmNames|
    ensures forall i :: 0 <= i < |vmNames| ==>
              var r := CheckVMSnapshots(vmNames[i], providerName, namespace, inv);
              results[i] == if r.Success? then r.value else FailedCheckInfo(vmNames[i])
    ensures forall i :: 0 <= i < |vmNames| ==>
              IsConsistent(results[i]) != (results[i] == FailedCheckInfo(vmNames[i]))
  {
    results := [];
    for k := 0 to |vmNames|
      invariant |results| == k
      invariant forall i :: 0 <= i < k ==> results[i] == CheckOrPlaceholder(vmNames[i], providerName, namespace, inv)
    {
      var info: VsphereSnapshotInfo;
      match CheckVMSnapshots(vmNames[k], providerName, namespace, inv) {
        case Success(found) => info := found;
        case Failure(_) => info := FailedCheckInfo(vmNames[k]);
      }
      results := results + [info];
    }
  }

  /** The warning `logSnapshotWarning` prints: VM, count and the provider named in the advice. */
  datatype SnapshotWarning = SnapshotWarning(vmName: string, snapshotCount: int, providerName: string)

  /** `logSnapshotWarning`: nothing for a VM without snapshots, else a warning about it. */
  function LogSnapshotWarning(info: VsphereSnapshotInfo, providerName: string): (w: Option<SnapshotWarning>)
    ensures w.None? <==> !info.hasSnapshots
    ensures w.Some? ==> w.value == SnapshotWarning(info.vmName, info.snapshotCount, providerName)
  {
    if !info.hasSnapshots then None
    else Some(SnapshotWarning(info.vmName, info.snapshotCount, providerName))
  }

  /** `failIfSnapshotsExist`: throws exactly when the VM has snapshots, naming it and the count. */
  function FailIfSnapshotsExist(info: VsphereSnapshotInfo): (r: Result<(), SnapshotError>)
    ensures r.Failure? <==> info.hasSnapshots
    ensures r.Failure? ==> r.error == PreexistingSnapshots(info.vmName, info.snapshotCount)
  {
    if info.hasSnapshots then Failure(PreexistingSnapshots(info.vmName, info.snapshotCount))
    else Success(())
  }

  /** One observable step of a wait: a refresh (annotate and settle), a check, or a sleep. */
  datatype PollEvent = Refresh | Check | Sleep(ms: int)

  /**
   * The answers the cluster gives over a wait: the state seen by the k-th check and the output
   * of the k-th inventory refresh (`oc annotate`).
   */
  datatype Observations = Observations(inventory: nat -> Inventory, annotate: nat -> Exec)

  /** A check that found the VM with snapshots. */
  predicate IsDirty(r: Result<VsphereSnapshotInfo, SnapshotError>) {
    r.Success? && r.value.hasSnapshots
  }

  /** A check that found the VM without snapshots. */
  predicate IsClean(r: Result<VsphereSnapshotInfo, SnapshotError>) {
    r.Success? && !r.value.hasSnapshots
  }

  /** `n` rounds of `waitForSnapshotsRemoved` that each found snapshots. */
  function DirtyRounds(n: nat, pollIntervalMs: int): (t: seq<PollEvent>)
    ensures |t| == 3 * n
  {
    if n == 0 then [] else DirtyRounds(n - 1, pollIntervalMs) + [Refresh, Check, Sleep(pollIntervalMs)]
  }

  /** The number of occurrences of `e` in a trace. */
  function Occurrences(t: seq<PollEvent>, e: PollEvent): (n: nat)
    ensures n <= |t|
  {
    if t == [] then 0 else (if t[0] == e then 1 else 0) + Occurrences(t[1..], e)
  }

  lemma {:induction false} OccurrencesAppend(a: seq<PollEvent>, b: seq<PollEvent>, e: PollEvent)
    ensures Occurrences(a + b, e) == Occurrences(a, e) + Occurrences(b, e)
  {
    if a == [] {
      assert a + b == b;
    } else {
      OccurrencesAppend(a[1..], b, e);
      assert (a + b)[1..] == a[1..] + b;
    }
  }

  /** Every check of a trace comes right after a refresh. */
  predicate ChecksFollowRefreshes(t: seq<PollEvent>) {
    forall i :: 0 <= i < |t| && t[i] == Check ==> 0 < i && t[i - 1] == Refresh
  }

  /** The occurrences of each event kind in a three-event sequence. */
  lemma OccurrencesOfThree(x: PollEvent, y: PollEvent, z: PollEvent, e: PollEvent)
    ensures Occurrences([x, y, z], e) == (if x == e then 1 else 0) + (if y == e then 1 else 0) + (if z == e then 1 else 0)
  {
    assert [x, y, z][1..] == [y, z] && [y, z][1..] == [z] && [z][1..] == [];
    assert Occurrences([z], e) == if z == e then 1 else 0;
    assert Occurrences([y, z], e) == (if y == e then 1 else 0) + Occurrences([z], e);
  }

  /** Appending a piece that starts with something other than a check keeps checks after refreshes. */
  lemma ChecksFollowRefreshesAppend(a: seq<PollEvent>, b: seq<PollEvent>)
    requires ChecksFollowRefreshes(a) && ChecksFollowRefreshes(b)
    ensures ChecksFollowRefreshes(a + b)
  {
    forall i | 0 <= i < |a + b| && (a + b)[i] == Check
      ensures 0 < i && (a + b)[i - 1] == Refresh
    {
      if i >= |a| {
        assert b[i - |a|] == Check;
      }
    }
  }

  /** Every check of `waitForSnapshotsRemoved`'s rounds, and of a last clean round, follows a refresh. */
  lemma {:induction false} DirtyRoundsFollowRefreshes(n: nat, p: int)
    ensures ChecksFollowRefreshes(DirtyRounds(n, p))
    ensures ChecksFollowRefreshes(DirtyRounds(n, p) + [Refresh, Check])
  {
    if n > 0 {
      DirtyRoundsFollowRefreshes(n - 1, p);
      ChecksFollowRefreshesAppend(DirtyRounds(n - 1, p), [Refresh, Check, Sleep(p)]);
    }
    ChecksFollowRefreshesAppend(DirtyRounds(n, p), [Refresh, Check]);
  }

  /**
   * `n` rounds hold `n` refreshes and `n` checks; a last round that checks adds one of each,
   * and a last refresh that fails adds a refresh only.
   */
  lemma {:induction false} DirtyRoundsCounts(n: nat, p: int)
    ensures Occurrences(DirtyRounds(n, p), Refresh) == n && Occurrences(DirtyRounds(n, p), Check) == n
    ensures Occurrences(DirtyRounds(n, p) + [Refresh, Check], Refresh) == n + 1
    ensures Occurrences(DirtyRounds(n, p) + [Refresh, Check], Check) == n + 1
    ensures Occurrences(DirtyRounds(n, p) + [Refresh], Refresh) == n + 1
    ensures Occurrences(DirtyRounds(n, p) + [Refresh], Check) == n
  {
    if n > 0 {
      DirtyRoundsCounts(n - 1, p);
      OccurrencesAppend(DirtyRounds(n - 1, p), [Refresh, Check, Sleep(p)], Refresh);
      OccurrencesAppend(DirtyRounds(n - 1, p), [Refresh, Check, Sleep(p)], Check);
      OccurrencesOfThree(Refresh, Check, Sleep(p), Refresh);
      OccurrencesOfThree(Refresh, Check, Sleep(p), Check);
    }
    EndingCounts(DirtyRounds(n, p), n);
  }

  /** The counts after a last round that checks, and after a last refresh that fails. */
  lemma EndingCounts(t: seq<PollEvent>, n: nat)
    requires Occurrences(t, Refresh) == n && Occurrences(t, Check) == n
    ensures Occurrences(t + [Refresh, Check], Refresh) == n + 1
    ensures Occurrences(t + [Refresh, Check], Check) == n + 1
    ensures Occurrences(t + [Refresh], Refresh) == n + 1
    ensures Occurrences(t + [Refresh], Check) == n
  {
    OccurrencesAppend(t, [Refresh, Check], Refresh);
    OccurrencesAppend(t, [Refresh, Check], Check);
    OccurrencesAppend(t, [Refresh], Refresh);
    OccurrencesAppend(t, [Refresh], Check);
    assert [Refresh, Check][1..] == [Check] && [Check][1..] == [] && [Refresh][1..] == [];
  }

  /**
   * `waitForSnapshotsRemoved`, with `clock(k)` the k-th reading of `Date.now()` (reading 0 is
   * the start time, reading j the loop head of round j). Each round refreshes, then checks,
   * then sleeps. `dirty` is the number of rounds that found snapshots; the trace is those
   * rounds followed by nothing (timeout: the elapsed time at the next loop head reached
   * `timeoutMs`), by a refresh that failed, or by a refresh and a check that either found the
   * VM clean (the wait returns) or failed (its error is thrown).
   */
  method WaitForSnapshotsRemoved(vmName: string, providerName: string, namespace: string,
                                 timeoutMs: int, pollIntervalMs: int,
                                 obs: Observations, clock: nat -> int)
    returns (outcome: Result<(), SnapshotError>, trace: seq<PollEvent>, dirty: nat)
    requires forall k: nat :: clock(k) < clock(k + 1)
    ensures forall k :: 0 <= k < dirty ==> IsDirty(CheckVMSnapshots(vmName, providerName, namespace, obs.inventory(k)))
    ensures forall k :: 0 <= k < dirty ==> obs.annotate(k).Stdout?
    ensures forall j :: 1 <= j <= dirty ==> clock(j) - clock(0) < timeoutMs
    ensures var rounds := DirtyRounds(dirty, pollIntervalMs);
            trace in {rounds, rounds + [Refresh], rounds + [Refresh, Check]}
    ensures trace == DirtyRounds(dirty, pollIntervalMs) <==>
              outcome == Failure(StillHasSnapshotsAfterMs(vmName, timeoutMs))
    ensures trace == DirtyRounds(dirty, pollIntervalMs) ==> clock(dirty + 1) - clock(0) >= timeoutMs
    ensures trace != DirtyRounds(dirty, pollIntervalMs) ==> clock(dirty + 1) - clock(0) < timeoutMs
    ensures trace == DirtyRounds(dirty, pollIntervalMs) + [Refresh] ==>
              obs.annotate(dirty).ExecFailed? && outcome == Failure(CommandFailed(obs.annotate(dirty).reason))
    ensures trace == DirtyRounds(dirty, pollIntervalMs) + [Refresh, Check] ==>
              var r := CheckVMSnapshots(vmName, providerName, namespace, obs.inventory(dirty));
              && obs.annotate(dirty).Stdout? && !IsDirty(r)
              && outcome == if r.Success? then Success(()) else Failure(r.error)
    ensures timeoutMs <= clock(1) - clock(0) ==>
              outcome == Failure(StillHasSnapshotsAfterMs(vmName, timeoutMs)) && trace == []
  {
    var start := clock(0);
    var readings: nat := 1;
    trace := [];
    dirty := 0;
    while clock(readings) - start < timeoutMs
      invariant readings == dirty + 1
      invariant trace == DirtyRounds(dirty, pollIntervalMs)
      invariant forall k :: 0 <= k < dirty ==> IsDirty(CheckVMSnapshots(vmName, providerName, namespace, obs.inventory(k)))
      invariant forall k :: 0 <= k < dirty ==> obs.annotate(k).Stdout?
      invariant forall j :: 1 <= j <= dirty ==> clock(j) - start < timeoutMs
      decreases timeoutMs - (clock(readings) - start)
    {
      trace := trace + [Refresh];
      var refreshed := obs.annotate(dirty);
      if refreshed.ExecFailed? {
        return Failure(CommandFailed(refreshed.reason)), trace, dirty;
      }
      trace := trace + [Check];
      assert trace == DirtyRounds(dirty, pollIntervalMs) + [Refresh, Check];
      var vmInfo := CheckVMSnapshots(vmName, providerName, namespace, obs.inventory(dirty));
      if vmInfo.Failure? {
        return Failure(vmInfo.error), trace, dirty;
      }
      if !vmInfo.value.hasSnapshots {
        return Success(()), trace, dirty;
      }
      trace := trace + [Sleep(pollIntervalMs)];
      dirty := dirty + 1;
      readings := readings + 1;
    }
    outcome := Failure(StillHasSnapshotsAfterMs(vmName, timeoutMs));
  }
}
