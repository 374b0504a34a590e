/**
 * The teardown ledger of the end-to-end suite (`ResourceManager`): an ordered list of cluster
 * resources a test created, deleted in bulk at teardown with per-resource failures tolerated.
 */
module Resources {
  import opened Wrappers

  /** A resource registered for deletion; `apiVersion` may be absent. */
  datatype ResourceToCleanup = ResourceToCleanup(
    namespace: string,
    resourceType: string,
    resourceName: string,
    apiVersion: Option<string>)

  const ProjectApiVersion := "project.openshift.io/v1"
  const ForkliftApiVersion := "forklift.konveyor.io/v1beta1"

  /** The API group/version assumed for a resource type when none is given. */
  function DefaultApiVersion(resourceType: string): (v: string)
    ensures v == ProjectApiVersion <==> resourceType == "projects"
    ensures v == ForkliftApiVersion <==> resourceType != "projects"
  {
    match resourceType
    case "projects" => ProjectApiVersion
    case _ => ForkliftApiVersion
  }

  /** The entry `addResource` stores: the given resource, its `apiVersion` filled in if absent. */
  function WithDefaultApiVersion(r: ResourceToCleanup): (t: ResourceToCleanup)
    ensures t.namespace == r.namespace && t.resourceType == r.resourceType
    ensures t.resourceName == r.resourceName
    ensures t.apiVersion.Some?
    ensures r.apiVersion.Some? ==> t.apiVersion == r.apiVersion
    ensures r.apiVersion.None? ==> t.apiVersion == Some(DefaultApiVersion(r.resourceType))
  {
    r.(apiVersion := Some(r.apiVersion.GetOr(DefaultApiVersion(r.resourceType))))
  }

  /** A template literal renders an absent value as the text "undefined". */
  function Interpolate(o: Option<string>): string {
    o.GetOr("undefined")
  }

  const ApiRoot := "/api/kubernetes/apis/"

  /** The part of every delete path up to and including the separator after the API version. */
  function ApiBase(r: ResourceToCleanup): string {
    ApiRoot + Interpolate(r.apiVersion) + "/"
  }

  /** The trailing `{type}/{name}` part of every delete path. */
  function TypeAndName(r: ResourceToCleanup): string {
    r.resourceType + "/" + r.resourceName
  }

  /**
   * The DELETE path of a resource: namespaced when `namespace` is non-empty, cluster-scoped
   * otherwise.
   */
  function DeletePath(r: ResourceToCleanup): (path: string)
    ensures |ApiBase(r)| <= |path| && path[..|ApiBase(r)|] == ApiBase(r)
    ensures |TypeAndName(r)| <= |path| && path[|path| - |TypeAndName(r)|..] == TypeAndName(r)
    ensures r.namespace == "" ==> path == ApiBase(r) + TypeAndName(r)
    ensures r.namespace != "" ==> |path| == |ApiBase(r)| + |"namespaces/"| + |r.namespace| + 1 + |TypeAndName(r)|
  {
    var base, tail := ApiBase(r), TypeAndName(r);
    var path := if r.namespace != "" then base + "namespaces/" + r.namespace + "/" + tail
                else base + tail;
    assert path[..|base|] == base;
    assert path[|path| - |tail|..] == tail;
    path
  }

  /**
   * A namespaced resource's path is the path of the same resource without a namespace with
   * `namespaces/{namespace}/` inserted right after the API version.
   */
  lemma NamespacedPathInsertsSegment(r: ResourceToCleanup)
    requires r.namespace != ""
    ensures var cluster := DeletePath(r.(namespace := ""));
            var k := |ApiBase(r)|;
            DeletePath(r) == cluster[..k] + "namespaces/" + r.namespace + "/" + cluster[k..]
  {
    var cluster := DeletePath(r.(namespace := ""));
    var k := |ApiBase(r)|;
    assert cluster == ApiBase(r) + TypeAndName(r);
    assert cluster[..k] == ApiBase(r) && cluster[k..] == TypeAndName(r);
  }

  /** What `page.evaluate(fetch …)` yields for one delete: a response, or a rejected request. */
  datatype DeleteResponse = Response(status: int, statusText: string) | RequestRejected(reason: string)

  /** The failure of one resource's cleanup. */
  datatype CleanupError = HttpError(status: int, statusText: string) | RequestError(reason: string)

  /** `Response.ok`: a status in the 2xx range. */
  predicate IsOkStatus(status: int) {
    200 <= status <= 299
  }

  /**
   * `cleanupResource`'s verdict on one response: a 2xx status and 404 (already gone) are
   * success; any other status, and a rejected request, are a failure carrying what was seen.
   */
  function ClassifyResponse(resp: DeleteResponse): (r: Result<(), CleanupError>)
    ensures r.Success? <==> resp.Response? && (IsOkStatus(resp.status) || resp.status == 404)
    ensures r.Failure? && resp.Response? ==> r.error == HttpError(resp.status, resp.statusText)
    ensures resp.RequestRejected? ==> r == Failure(RequestError(resp.reason))
  {
    match resp
    case RequestRejected(reason) => Failure(RequestError(reason))
    case Response(status, text) =>
      if IsOkStatus(status) then Success(())
      else if status == 404 then Success(())
      else Failure(HttpError(status, text))
  }

  /** The number of settled cleanups that succeeded. */
  function CountSuccesses(results: seq<Result<(), CleanupError>>): (n: nat)
    ensures n <= |results|
  {
    if results == [] then 0
    else CountSuccesses(results[..|results| - 1]) + (if results[|results| - 1].Success? then 1 else 0)
  }

  /** No success at all makes the count zero; all successes make it the length. */
  lemma {:induction false} CountSuccessesExtremes(results: seq<Result<(), CleanupError>>)
    ensures CountSuccesses(results) == 0 <==> forall i :: 0 <= i < |results| ==> results[i].Failure?
    ensures CountSuccesses(results) == |results| <==> forall i :: 0 <= i < |results| ==> results[i].Success?
  {
    if results != [] {
      var init := results[..|results| - 1];
      CountSuccessesExtremes(init);
      assert forall i :: 0 <= i < |init| ==> init[i] == results[i];
    }
  }

  /**
   * The loop of `cleanupAll` over the settled results: success and failure counts that add up
   * to the number of results.
   */
  method TallyResults(results: seq<Result<(), CleanupError>>) returns (successCount: nat, failureCount: nat)
    ensures successCount == CountSuccesses(results)
    ensures successCount + failureCount == |results|
  {
    successCount, failureCount := 0, 0;
    for index := 0 to |results|
      invariant successCount == CountSuccesses(results[..index])
      invariant successCount + failureCount == index
    {
      assert results[..index + 1][..index] == results[..index];
      if results[index].Success? {
        successCount := successCount + 1;
      } else {
        failureCount := failureCount + 1;
      }
    }
    assert results[..|results|] == results;
  }

  /** What one `cleanupAll` did: the delete paths it requested, each result, and the tallies. */
  datatype CleanupReport = CleanupReport(
    requests: seq<string>,
    results: seq<Result<(), CleanupError>>,
    successCount: nat,
    failureCount: nat)

  /** The persisted ledger file: missing, holding a list, or holding text that does not parse. */
  datatype ResourcesFile = Absent | Holds(contents: seq<ResourceToCleanup>) | Unparsable

  datatype LoadError = InvalidJson

  class ResourceManager {
    var resources: seq<ResourceToCleanup>

    constructor ()
      ensures resources == []
    {
      resources := [];
    }

    /** `addResource`: exactly one entry, with its default API version, goes at the end. */
    method AddResource(resource: ResourceToCleanup)
      modifies this
      ensures resources == old(resources) + [WithDefaultApiVersion(resource)]
    {
      resources := resources + [WithDefaultApiVersion(resource)];
    }

    /**
     * `cleanupAll`: with `responses[i]` the answer to the delete of the i-th resource, issues
     * every delete in order, tallies the outcomes and empties the ledger whatever they were.
     * An empty ledger issues nothing.
     */
    method CleanupAll(responses: seq<DeleteResponse>) returns (report: CleanupReport)
      requires |responses| == |resources|
      modifies this
      ensures |report.requests| == |old(resources)| == |report.results|
      ensures forall i :: 0 <= i < |old(resources)| ==>
                report.requests[i] == DeletePath(old(resources)[i])
                && report.results[i] == ClassifyResponse(responses[i])
      ensures report.successCount == CountSuccesses(report.results)
      ensures report.successCount + report.failureCount == |old(resources)|
      ensures resources == []
    {
      if |resources| == 0 {
        return CleanupReport([], [], 0, 0);
      }
      var requests := seq(|resources|, i requires 0 <= i < |resources| reads this => DeletePath(resources[i]));
      var results := seq(|responses|, i requires 0 <= i < |responses| => ClassifyResponse(responses[i]));
      var successCount, failureCount := TallyResults(results);
      report := CleanupReport(requests, results, successCount, failureCount);
      resources := [];
    }

    /** `getResourceCount`. */
    method GetResourceCount() returns (n: nat)
      ensures n == |resources|
    {
      n := |resources|;
    }

    /** `getResources`: a copy of the ledger; a sequence value cannot alias the field. */
    method GetResources() returns (copy: seq<ResourceToCleanup>)
      ensures copy == resources
    {
      copy := resources;
    }

    /**
     * `loadResourcesFromFile`: the file's list replaces the ledger; a missing file leaves it
     * as it is; text that does not parse is an error and also leaves it as it is.
     */
    method LoadResourcesFromFile(file: ResourcesFile) returns (r: Result<(), LoadError>)
      modifies this
      ensures file.Holds? ==> r.Success? && resources == file.contents
      ensures file.Absent? ==> r.Success? && resources == old(resources)
      ensures file.Unparsable? ==> r == Failure(InvalidJson) && resources == old(resources)
    {
      match file
      case Absent => r := Success(());
      case Unparsable => r := Failure(InvalidJson);
      case Holds(contents) =>
        resources := contents;
        r := Success(());
    }

    /** `saveResourcesToFile`: the file afterwards holds the whole ledger. */
    method SaveResourcesToFile() returns (file: ResourcesFile)
      ensures file == Holds(resources)
    {
      file := Holds(resources);
    }
  }

  /** Saving one ledger and loading the file into a fresh manager reproduces the list. */
  method SaveThenLoad(source: ResourceManager) returns (restored: ResourceManager)
    ensures restored.resources == source.resources
  {
    var file := source.SaveResourcesToFile();
    restored := new ResourceManager();
    var _ := restored.LoadResourcesFromFile(file);
  }

  /**
   * A provider, a plan and a network map registered in that order, answered with 200, 404
   * and 500: two successes, one failure, an empty ledger afterwards.
   */
  method TeardownScenario() returns (report: CleanupReport, remaining: nat)
    ensures |report.requests| == |report.results| == 3
    ensures report.successCount == 2 && report.failureCount == 1
    ensures report.results[2] == Failure(HttpError(500, "Internal Server Error"))
    ensures remaining == 0
  {
    var manager := new ResourceManager();
    manager.AddResource(ResourceToCleanup("openshift-mtv", "providers", "p1", None));
    manager.AddResource(ResourceToCleanup("openshift-mtv", "plans", "pl1", None));
    manager.AddResource(ResourceToCleanup("openshift-mtv", "networkmaps", "nm1", None));
    report := manager.CleanupAll([Response(200, "OK"), Response(404, "Not Found"),
                                  Response(500, "Internal Server Error")]);
    assert report.results == [Success(()), Success(()), Failure(HttpError(500, "Internal Server Error"))];
    var rs := report.results;
    assert rs[..2] == [Success(()), Success(())] && rs[..2][..1] == [Success(())];
    assert CountSuccesses(rs[..1]) == 1 by {
      assert rs[..1][..0] == [];
    }
    assert CountSuccesses(rs[..2]) == 2;
    assert CountSuccesses(rs) == 2;
    remaining := manager.GetResourceCount();
  }
}
