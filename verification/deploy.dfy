/**
 * The decision procedures of the intel hub's Render deploy script: which
 * repository paths stay out of the source archive, which owner (workspace)
 * to deploy into, how a deploy's polled status ends the wait, which URL to
 * report, and how a newly triggered deploy is recognised.
 *
 * The Render API, the clock and `sleep` are parameters: a poll loop sees
 * the answer of its k-th request as `f(k)`, and the deadline as the number
 * of polls it allows.
 */
module Deploy {
  import opened Wrappers
  import opened Text
  import opened Paths

  const ExcludeDirs: set<string> := {".git", ".runtime", ".venv", "__pycache__", "docs"}
  const ExcludeFiles: set<string> := {"intel.db", ".DS_Store"}
  const ExcludeSuffixes: set<string> := {".pyc", ".pyo"}

  /** A path some of whose parts is an excluded directory. */
  predicate InExcludedDir(path: string) {
    exists c :: c in Parts(path) && c in ExcludeDirs
  }

  /**
   * `_should_exclude`: a path is left out of the archive when one of its
   * parts is an excluded directory, its name is an excluded file, or its
   * suffix is `.pyc` or `.pyo`; so every compiled Python file is left out,
   * and a path is kept only when none of its parts is an excluded directory.
   */
  predicate ShouldExclude(path: string)
    ensures ShouldExclude(path) <== CompiledPython(Name(path))
    ensures !ShouldExclude(path) ==> forall c :: c in Parts(path) ==> c !in ExcludeDirs
  {
    CompiledPythonSuffix(Name(path));
    InExcludedDir(path) || Name(path) in ExcludeFiles || Suffix(Name(path)) in ExcludeSuffixes
  }

  /** A file name `x.pyc` or `x.pyo` with a non-empty stem not ending in a dot. */
  predicate CompiledPython(name: string) {
    |name| > 4 && name[|name| - 5] != '.' && name[|name| - 4..] in ExcludeSuffixes
  }

  lemma CompiledPythonSuffix(name: string)
    ensures CompiledPython(name) ==> Suffix(name) in ExcludeSuffixes
  {
    if CompiledPython(name) {
      var n := |name|;
      assert name[n - 4] == '.' && name[n - 3] != '.' && name[n - 2] != '.' && name[n - 1] != '.';
      assert LastIndex(name, '.') == n - 4;
      assert Suffix(name) == name[n - 4..];
    }
  }

  /**
   * Everything below an excluded directory is excluded: `_should_exclude`
   * rejects `p/q` whenever some part of `p` is an excluded directory.
   */
  lemma ExcludedSubtree(p: string, q: string)
    requires InExcludedDir(p)
    ensures ShouldExclude(p + "/" + q)
  {
    var c :| c in Parts(p) && c in ExcludeDirs;
    ComponentsAppend(p, q);
    assert c in Components(p) by {
      assert c != "/";
    }
    assert (p + "/" + q)[0] == p[0];
    assert c in Parts(p + "/" + q);
  }

  /** A name without slashes that is not `.` is a path of one component. */
  lemma SingleComponent(d: string)
    requires d != [] && '/' !in d && d != "."
    ensures Components(d) == [d]
  {
    assert d[0] != '/' by {
      assert d[0] in d;
    }
    var w := Segment(d);
    assert |w| == |d| && w == d;
    assert d[|w|..] == [];
  }

  lemma ExcludeDirsShape()
    ensures forall d :: d in ExcludeDirs ==> d != [] && '/' !in d && d != "."
  {
  }

  /** The excluded directories themselves, at any depth, are excluded. */
  lemma ExcludedDirItself(prefix: string, d: string)
    requires d in ExcludeDirs
    ensures ShouldExclude(prefix + "/" + d)
  {
    ExcludeDirsShape();
    SingleComponent(d);
    ComponentsAppend(prefix, d);
    assert d in Components(prefix + "/" + d);
  }

  /* ---------------- Owner selection ---------------- */

  /** A Render owner: its id, and its name (`""` when absent). */
  datatype Owner = Owner(id: string, name: string)

  datatype OwnerError =
    | NoOwners
    | OwnerNotFound(wanted: string)
    | MultipleOwners

  /** How owner names are compared: stripped and lower-cased. */
  function NameKey(name: string): string {
    Lower(Strip(name))
  }

  /** The index of the first element whose key is `wanted`. */
  function FirstMatch<T>(xs: seq<T>, key: T -> string, wanted: string): (r: Option<nat>)
    ensures r.Some? ==> r.value < |xs| && key(xs[r.value]) == wanted
                        && forall j :: 0 <= j < r.value ==> key(xs[j]) != wanted
    ensures r.None? ==> forall j :: 0 <= j < |xs| ==> key(xs[j]) != wanted
  {
    if xs == [] then None
    else if key(xs[0]) == wanted then Some(0)
    else
      match FirstMatch(xs[1..], key, wanted)
      case None => None
      case Some(i) => Some(i + 1)
  }

  /** The comparison key of an owner. */
  function OwnerKey(o: Owner): string {
    NameKey(o.name)
  }

  /**
   * `_pick_owner_id`: an explicit owner id wins; otherwise the first owner
   * whose name matches the wanted name, when one is given; otherwise the
   * only owner. `explicitEnv` and `nameEnv` are the raw values of
   * `RENDER_OWNER_ID` and `RENDER_OWNER_NAME` (`""` when unset).
   */
  function PickOwner(explicitEnv: string, nameEnv: string, owners: seq<Owner>): Result<string, OwnerError> {
    if Strip(explicitEnv) != [] then Ok(Strip(explicitEnv))
    else if owners == [] then Err(NoOwners)
    else if NameKey(nameEnv) != [] then
      match FirstMatch(owners, OwnerKey, NameKey(nameEnv))
      case Some(i) => Ok(owners[i].id)
      case None => Err(OwnerNotFound(NameKey(nameEnv)))
    else if |owners| == 1 then Ok(owners[0].id)
    else Err(MultipleOwners)
  }

  /**
   * With a wanted name and no explicit id, the owner picked is the first
   * whose name matches; the error names the wanted name exactly when no
   * owner matches.
   */
  lemma PickOwnerByName(explicitEnv: string, nameEnv: string, owners: seq<Owner>)
    requires Strip(explicitEnv) == [] && owners != [] && NameKey(nameEnv) != []
    ensures var r := PickOwner(explicitEnv, nameEnv, owners);
      && (r.Ok? ==> exists i :: 0 <= i < |owners| && NameKey(owners[i].name) == NameKey(nameEnv) && r.value == owners[i].id
                               && forall j :: 0 <= j < i ==> NameKey(owners[j].name) != NameKey(nameEnv))
      && (r.Err? <==> forall j :: 0 <= j < |owners| ==> NameKey(owners[j].name) != NameKey(nameEnv))
      && (r.Err? ==> r.error == OwnerNotFound(NameKey(nameEnv)))
  {
    var m := FirstMatch(owners, OwnerKey, NameKey(nameEnv));
    if m.Some? {
      assert NameKey(owners[m.value].name) == NameKey(nameEnv);
    }
  }

  /**
   * Without a wanted name or explicit id the pick succeeds exactly when
   * there is a single owner; with no owners at all it always fails; an
   * explicit id is taken as given.
   */
  lemma PickOwnerOtherwise(explicitEnv: string, nameEnv: string, owners: seq<Owner>)
    ensures Strip(explicitEnv) != [] ==> PickOwner(explicitEnv, nameEnv, owners) == Ok(Strip(explicitEnv))
    ensures Strip(explicitEnv) == [] && owners == [] ==> PickOwner(explicitEnv, nameEnv, owners) == Err(NoOwners)
    ensures Strip(explicitEnv) == [] && owners != [] && NameKey(nameEnv) == [] ==>
      (PickOwner(explicitEnv, nameEnv, owners).Ok? <==> |owners| == 1)
  {
  }

  /** The owner choice of `_pick_owner_id`, with its search loop. */
  method PickOwnerId(explicitEnv: string, nameEnv: string, owners: seq<Owner>) returns (r: Result<string, OwnerError>)
    ensures r == PickOwner(explicitEnv, nameEnv, owners)
  {
    var explicit := Strip(explicitEnv);
    if explicit != [] {
      return Ok(explicit);
    }
    if owners == [] {
      return Err(NoOwners);
    }
    var ownerName := Lower(Strip(nameEnv));
    if ownerName != [] {
      var found := FindOwner(owners, OwnerKey, ownerName);
      if found.Some? {
        return Ok(owners[found.value].id);
      }
      return Err(OwnerNotFound(ownerName));
    }
    if |owners| == 1 {
      return Ok(owners[0].id);
    }
    return Err(MultipleOwners);
  }

  /** The loop of `_pick_owner_id`: the first owner whose name matches. */
  method FindOwner<T>(owners: seq<T>, key: T -> string, wanted: string) returns (found: Option<nat>)
    ensures found == FirstMatch(owners, key, wanted)
  {
    for i := 0 to |owners|
      invariant forall j :: 0 <= j < i ==> key(owners[j]) != wanted
    {
      if key(owners[i]) == wanted {
        return Some(i);
      }
    }
    return None;
  }

  /* ---------------- Waiting for a deploy ---------------- */

  const TerminalSuccess: set<string> := {"live"}
  const TerminalFailure: set<string> := {"build_failed", "update_failed", "canceled", "pre_deploy_failed"}

  /** A status that ends the wait. */
  predicate Terminal(status: string) {
    status in TerminalSuccess || status in TerminalFailure
  }

  datatype DeployOutcome =
    | Live(poll: nat)
    | Failed(status: string)
    | TimedOut

  /** The status the `k`-th poll reads, stripped of surrounding whitespace. */
  function PolledStatus(statusAt: nat -> string, k: nat): string {
    Strip(statusAt(k))
  }

  /**
   * `_wait_for_deploy`, with the deadline counted in polls: `statusAt(k)` is
   * the status the `k`-th poll reads. The first terminal status decides.
   */
  method WaitForDeploy(statusAt: nat -> string, polls: nat) returns (r: DeployOutcome)
    ensures r.Live? ==> r.poll < polls && PolledStatus(statusAt, r.poll) == "live"
                        && forall k :: 0 <= k < r.poll ==> !Terminal(PolledStatus(statusAt, k))
    ensures r.Failed? ==> r.status in TerminalFailure
                          && exists k :: 0 <= k < polls && PolledStatus(statusAt, k) == r.status
                                         && forall j :: 0 <= j < k ==> !Terminal(PolledStatus(statusAt, j))
    ensures r.TimedOut? <==> forall k :: 0 <= k < polls ==> !Terminal(PolledStatus(statusAt, k))
  {
    var status := (k: nat) => PolledStatus(statusAt, k);
    r := WaitOn(status, polls);
    assert forall k: nat :: status(k) == PolledStatus(statusAt, k);
    if r.Failed? {
      var k :| 0 <= k < polls && status(k) == r.status && forall j :: 0 <= j < k ==> !Terminal(status(j));
      assert PolledStatus(statusAt, k) == r.status;
    }
  }

  /** The polling loop over the stripped statuses `status(0)`, `status(1)`, ... */
  method WaitOn(status: nat -> string, polls: nat) returns (r: DeployOutcome)
    ensures r.Live? ==> r.poll < polls && status(r.poll) == "live"
                        && forall k :: 0 <= k < r.poll ==> !Terminal(status(k))
    ensures r.Failed? ==> r.status in TerminalFailure
                          && exists k :: 0 <= k < polls && status(k) == r.status
                                         && forall j :: 0 <= j < k ==> !Terminal(status(j))
    ensures r.TimedOut? <==> forall k :: 0 <= k < polls ==> !Terminal(status(k))
  {
    var k := 0;
    while k < polls
      invariant k <= polls
      invariant forall j :: 0 <= j < k ==> !Terminal(status(j))
    {
      var st := status(k);
      if st in TerminalSuccess {
        return Live(k);
      }
      if st in TerminalFailure {
        return Failed(st);
      }
      k := k + 1;
    }
    return TimedOut;
  }

  /* ---------------- Service URL ---------------- */

  /**
   * The two places a service record may carry its URL: `serviceDetails.url`
   * (`None` when either is absent) and `dashboardUrl`.
   */
  datatype Service = Service(detailsUrl: Option<string>, dashboardUrl: Option<string>)

  /** `x or ...` for an optional string: present and non-empty. */
  predicate Truthy(x: Option<string>) {
    x.Some? && x.value != []
  }

  /** `_service_url`: the details URL, else the dashboard URL, else "". */
  function ServiceUrl(service: Service): (r: string)
    ensures Truthy(service.detailsUrl) ==> r == service.detailsUrl.value
    ensures !Truthy(service.detailsUrl) && Truthy(service.dashboardUrl) ==> r == service.dashboardUrl.value
    ensures r == [] <==> !Truthy(service.detailsUrl) && !Truthy(service.dashboardUrl)
  {
    if Truthy(service.detailsUrl) then service.detailsUrl.value
    else if Truthy(service.dashboardUrl) then service.dashboardUrl.value
    else ""
  }

  /* ---------------- Detecting the new deploy ---------------- */

  /** A listed latest deploy id that is present and differs from the prior one. */
  predicate IsNewDeploy(latest: Option<string>, prior: string) {
    latest.Some? && latest.value != [] && latest.value != prior
  }

  /**
   * The deploy id after triggering a deploy on an existing service: the id
   * the trigger returned, or else the first latest-deploy id, polled at most
   * `polls` times, that differs from the deploy that was latest before the
   * trigger; "" when none appears. `latestAt(k)` is the id of the latest
   * deploy the k-th poll lists (`None` when the list is empty).
   */
  method DetectDeployId(triggered: string, prior: string, latestAt: nat -> Option<string>, polls: nat)
    returns (deployId: string)
    ensures triggered != [] ==> deployId == triggered
    ensures triggered == [] && deployId != [] ==>
      deployId != prior && exists k :: 0 <= k < polls && latestAt(k) == Some(deployId)
                                       && forall j :: 0 <= j < k ==> !IsNewDeploy(latestAt(j), prior)
    ensures triggered == [] && deployId == [] ==> forall k :: 0 <= k < polls ==> !IsNewDeploy(latestAt(k), prior)
  {
    deployId := triggered;
    if deployId == [] {
      var k := 0;
      while k < polls
        invariant k <= polls
        invariant forall j :: 0 <= j < k ==> !IsNewDeploy(latestAt(j), prior)
      {
        var latest := latestAt(k);
        if latest.Some? {
          var candidate := latest.value;
          if candidate != [] && candidate != prior {
            deployId := candidate;
            break;
          }
        }
        k := k + 1;
      }
    }
  }

  /* ---------------- Settings ---------------- */

  /** `os.getenv(name, default).strip() or default` */
  function EnvOr(value: Option<string>, default: string): (r: string)
    ensures value.Some? && Strip(value.value) != [] ==> r == Strip(value.value)
    ensures value.Some? && Strip(value.value) == [] ==> r == default
    ensures value.None? && Trimmed(default) ==> r == default
    ensures default != [] ==> r != []
  {
    var s := Strip(value.GetOr(default));
    if s == [] then default else s
  }

  /** `_get_required_env`: the stripped value, or an error when it is empty. */
  function RequiredEnv(value: Option<string>): (r: Result<string, string>)
    ensures r.Ok? <==> value.Some? && Strip(value.value) != []
    ensures r.Ok? ==> Trimmed(r.value) && r.value != []
  {
    var s := Strip(value.GetOr(""));
    if s == [] then Err("Missing required environment variable") else Ok(s)
  }
}
