/** The check of a deployed version against GitHub, and the gate that spaces its requests
    (pkg/status/versionchecks.go, pkg/client/github_client.go). Instants are nanoseconds since the
    zero time. */
module VersionChecks {
  import opened Wrappers
  import opened Conditions

  const ZERO_TIME := 0
  const MINUTE := 60_000_000_000
  const GITHUB_API_CALL_DELAY := MINUTE
  const DEPLOYMENT_THRESHOLD := 30 * MINUTE
  const READY := "Ready"

  datatype Repository = Repository(org: string, name: string, branch: string, deployedCommitSHA: string)

  /** GitHub's answer to a request for the latest commit. */
  datatype Reply =
    | RequestFailed(message: string)
    | UnexpectedStatus(code: int)
    | NoCommit
    | LatestCommit(sha: string, authorDate: int)

  /** The condition handed back. */
  datatype Verdict =
    | NotProduction | NoAccessToken
    | Unchanged(existing: Condition) | NothingToRepeat
    | GitHubError
    | NotUpToDate | UpToDate

  /** One check: its arguments, GitHub's answer if it is asked, and the clock at the three points where
      the code reads it (the gate, the recorded call, the comparison with the deployment time). */
  datatype Check = Check(
    isProd: bool, accessTokenKey: string, existing: seq<Condition>, repo: Repository,
    reply: Reply, gate: int, recorded: int, judged: int)

  type CallTimes = map<string, int>

  predicate CanIssueGitHubRequest(lastCall: int, now: int) {
    lastCall == ZERO_TIME || now > lastCall + GITHUB_API_CALL_DELAY
  }

  predicate Issues(lastCalls: CallTimes, check: Check) {
    && check.isProd && check.accessTokenKey != ""
    && (check.repo.name in lastCalls ==> CanIssueGitHubRequest(lastCalls[check.repo.name], check.gate))
  }

  function Recorded(lastCalls: CallTimes, check: Check): CallTimes {
    if Issues(lastCalls, check) then lastCalls[check.repo.name := check.recorded] else lastCalls
  }

  /** The deployment is late exactly when another commit is the latest one and half an hour has passed
      since it was made. */
  predicate DeploymentIsLate(check: Check) {
    && check.reply.LatestCommit? && check.reply.sha != check.repo.deployedCommitSHA
    && check.judged > check.reply.authorDate + DEPLOYMENT_THRESHOLD
  }

  /** The moment itself, half an hour after the commit, is not late yet. */
  lemma LateExactly(check: Check)
    ensures DeploymentIsLate(check) <==>
            exists sha, authorDate ::
              && check.reply == LatestCommit(sha, authorDate) && sha != check.repo.deployedCommitSHA
              && check.judged - authorDate > 1_800_000_000_000
  {
    if DeploymentIsLate(check) {
      assert check.reply == LatestCommit(check.reply.sha, check.reply.authorDate);
    }
  }

  class VersionCheckManager {
    var lastGHCallsPerRepo: Option<CallTimes>

    function LastCalls(): CallTimes
      reads this
    {
      if lastGHCallsPerRepo.Some? then lastGHCallsPerRepo.value else map[]
    }

    method CheckDeployedVersionIsUpToDate(check: Check) returns (verdict: Verdict, called: bool)
      modifies this
      ensures called == Issues(old(LastCalls()), check)
      ensures LastCalls() == Recorded(old(LastCalls()), check)
      ensures !check.isProd ==> verdict == NotProduction
      ensures check.isProd && check.accessTokenKey == "" ==> verdict == NoAccessToken
      ensures check.isProd && check.accessTokenKey != "" && !called ==>
                verdict == match Find(check.existing, "Ready")
                           case Some(c) => Unchanged(c)
                           case None => NothingToRepeat
      ensures called ==> (verdict == GitHubError <==> !check.reply.LatestCommit?)
      ensures called ==> (verdict == NotUpToDate <==> DeploymentIsLate(check))
      ensures called ==> check.isProd && check.accessTokenKey != ""
      ensures called ==> verdict in {GitHubError, NotUpToDate, UpToDate}
    {
      called := false;
      if !check.isProd {
        return NotProduction, false;
      }
      if check.accessTokenKey == "" {
        return NoAccessToken, false;
      }
      if lastGHCallsPerRepo.None? {
        lastGHCallsPerRepo := Some(map[]);
      }
      var calls := lastGHCallsPerRepo.value;
      var name := check.repo.name;
      if name in calls && !CanIssueGitHubRequest(calls[name], check.gate) {
        var found := FindConditionByType(check.existing, READY);
        verdict := if found.Some? then Unchanged(found.value) else NothingToRepeat;
        return;
      }
      lastGHCallsPerRepo := Some(calls[name := check.recorded]);
      called := true;
      match check.reply
      case LatestCommit(sha, authorDate) =>
        var expectedDeploymentTime := authorDate + DEPLOYMENT_THRESHOLD;
        verdict := if sha != check.repo.deployedCommitSHA && check.judged > expectedDeploymentTime
                   then NotUpToDate else UpToDate;
      case _ =>
        verdict := GitHubError;
    }
  }

  // ----- runs -----

  datatype Call = Call(repo: string, at: int)

  function CallTimesAfter(initial: CallTimes, checks: seq<Check>): CallTimes {
    if checks == [] then initial
    else Recorded(CallTimesAfter(initial, checks[..|checks| - 1]), checks[|checks| - 1])
  }

  /** The calls a run records, oldest first, whatever GitHub answers to them. */
  function Calls(initial: CallTimes, checks: seq<Check>): seq<Call> {
    if checks == [] then []
    else
      var before, last := checks[..|checks| - 1], checks[|checks| - 1];
      Calls(initial, before)
      + if Issues(CallTimesAfter(initial, before), last) then [Call(last.repo.name, last.recorded)] else []
  }

  /** The clock never goes back, within a check and from check to check. */
  ghost predicate MonotoneClock(checks: seq<Check>) {
    && (forall i :: 0 <= i < |checks| ==> checks[i].gate <= checks[i].recorded)
    && (forall i, j :: 0 <= i < j < |checks| ==> checks[i].recorded <= checks[j].gate)
  }

  /** The remembered time of a repository is that of its latest call. */
  lemma {:induction false} RemembersTheLatestCall(checks: seq<Check>, name: string)
    requires MonotoneClock(checks)
    ensures var times, calls := CallTimesAfter(map[], checks), Calls(map[], checks);
            && (name in times <==> exists c :: c in calls && c.repo == name)
            && (name in times ==> Call(name, times[name]) in calls)
            && (forall c :: c in calls && c.repo == name ==> name in times && c.at <= times[name])
            && (forall c :: c in calls && checks != [] ==> c.at <= checks[|checks| - 1].recorded)
  {
    if checks != [] {
      var n := |checks| - 1;
      RemembersTheLatestCall(checks[..n], name);
      var before, calls, last := Calls(map[], checks[..n]), Calls(map[], checks), checks[n];
      assert forall c :: c in before ==> c.at <= last.recorded && c in calls;
      if Issues(CallTimesAfter(map[], checks[..n]), last) {
        assert calls == before + [Call(last.repo.name, last.recorded)];
        assert Call(last.repo.name, last.recorded) in calls;
      }
    }
  }

  lemma {:induction false} CallsInOrder(checks: seq<Check>, i: nat, j: nat)
    requires MonotoneClock(checks) && i < j < |Calls(map[], checks)|
    ensures Calls(map[], checks)[i].at <= Calls(map[], checks)[j].at
  {
    var n := |checks| - 1;
    var before := Calls(map[], checks[..n]);
    if j < |before| {
      CallsInOrder(checks[..n], i, j);
    } else {
      RemembersTheLatestCall(checks[..n], before[i].repo);
      assert before[i] in before;
    }
  }

  /** The latest call for a repository was recorded at the zero time. */
  ghost predicate ForgottenCall(calls: seq<Call>, name: string) {
    Call(name, ZERO_TIME) in calls && forall c :: c in calls && c.repo == name ==> c.at <= ZERO_TIME
  }

  /** The gate is exact: a production check with a token calls GitHub if and only if every earlier call
      for a repository of that name is more than a minute old, or the latest is at the zero time. */
  lemma GateIsExact(checks: seq<Check>, check: Check)
    requires MonotoneClock(checks + [check])
    requires check.isProd && check.accessTokenKey != ""
    ensures var calls := Calls(map[], checks);
            Issues(CallTimesAfter(map[], checks), check) <==>
            || (forall c :: c in calls && c.repo == check.repo.name ==> check.gate - c.at > 60_000_000_000)
            || ForgottenCall(calls, check.repo.name)
  {
    assert MonotoneClock(checks) by {
      assert forall i :: 0 <= i < |checks| ==> checks[i] == (checks + [check])[i];
    }
    RemembersTheLatestCall(checks, check.repo.name);
  }

  /** Over every run, two calls recorded for one repository name are more than a minute apart, unless the
      earlier one was recorded at the zero time. */
  lemma {:induction false} CallsAreSpaced(checks: seq<Check>, i: nat, j: nat)
    requires MonotoneClock(checks)
    requires i < j < |Calls(map[], checks)| && Calls(map[], checks)[i].repo == Calls(map[], checks)[j].repo
    requires Calls(map[], checks)[i].at != ZERO_TIME
    ensures Calls(map[], checks)[j].at - Calls(map[], checks)[i].at > 60_000_000_000
    decreases |checks|
  {
    var n := |checks| - 1;
    var before := Calls(map[], checks[..n]);
    if j < |before| {
      CallsAreSpaced(checks[..n], i, j);
    } else {
      LastCallIsLate(checks, i);
      if ForgottenCall(before, before[i].repo) {
        var k :| 0 <= k < |before| && before[k] == Call(before[i].repo, ZERO_TIME);
        if k < i {
          CallsInOrder(checks[..n], k, i);
        } else {
          CallsAreSpaced(checks[..n], i, k);
        }
        LastCheckIsLatest(checks, k);
      }
    }
  }

  /** A call recorded by the last check is more than a minute later than an earlier one for its repository, or the
      latest of those was at the zero time. */
  lemma LastCallIsLate(checks: seq<Check>, i: nat)
    requires checks != [] && MonotoneClock(checks)
    requires var before, calls := Calls(map[], checks[..|checks| - 1]), Calls(map[], checks);
             i < |before| < |calls| && calls[|before|].repo == before[i].repo
    ensures var before, calls := Calls(map[], checks[..|checks| - 1]), Calls(map[], checks);
            calls[|before|].at - before[i].at > MINUTE || ForgottenCall(before, before[i].repo)
  {
    var n := |checks| - 1;
    assert checks == checks[..n] + [checks[n]];
    GateIsExact(checks[..n], checks[n]);
    assert Calls(map[], checks[..n])[i] in Calls(map[], checks[..n]);
  }

  lemma LastCheckIsLatest(checks: seq<Check>, k: nat)
    requires checks != [] && MonotoneClock(checks) && k < |Calls(map[], checks[..|checks| - 1])|
    ensures Calls(map[], checks[..|checks| - 1])[k].at <= checks[|checks| - 1].recorded
  {
    var before := checks[..|checks| - 1];
    var call := Calls(map[], before)[k];
    RemembersTheLatestCall(before, call.repo);
    assert call in Calls(map[], before);
  }

  /** A call recorded at the zero time is taken for no call at all, and the next one is not held back. */
  lemma ZeroTimeDefeatsTheGate(check: Check)
    requires check.isProd && check.accessTokenKey != "" && check.gate == check.recorded == ZERO_TIME
    ensures Calls(map[], [check, check]) == [Call(check.repo.name, 0), Call(check.repo.name, 0)]
  {
    assert [check, check][..1] == [check] && [check][..0] == [];
    assert Calls(map[], [check]) == [Call(check.repo.name, 0)];
  }
}
