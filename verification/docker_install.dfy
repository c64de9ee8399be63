/** Installing Docker Engine: refuse to run as root, accept only listed
    distributions and versions, then run a fixed command sequence for the
    distribution, stopping at the first command that fails. */
module DockerInstall {
  import opened Wrappers
  import opened Text

  /** Supported distribution ids and, for each, the accepted version prefixes. */
  const SupportedOses: map<string, seq<string>> := map[
    "ubuntu" := ["24.04"],
    "debian" := ["12"],
    "fedora" := ["39"],
    "rhel" := ["9"],
    "rocky" := ["9"]]

  const RootMessage := "Do not run this script as root. The script will ask for sudo privileges."
  const KeyringDir := "/etc/apt/keyrings"
  const KeyringFile := "/etc/apt/keyrings/docker.gpg"
  const RepoPath := "/etc/apt/sources.list.d/docker.list"
  const DockerPackages := ["docker-ce", "docker-ce-cli", "containerd.io", "docker-buildx-plugin", "docker-compose-plugin"]

  /** A command: an argument vector, or a line run by the shell. */
  datatype Command = Argv(args: seq<string>) | Shell(line: string)

  datatype Failure =
    | RunAsRoot
    | UnsupportedOs(osId: string)
    | UnsupportedVersion(osId: string, version: string)
    | CommandFailed(command: Command)

  /** The message the script exits with; a failed command's message is the
      text of the `CalledProcessError`, which is not modelled. */
  function Message(f: Failure): (r: Option<string>)
    ensures r.None? <==> f.CommandFailed?
    ensures f.RunAsRoot? ==> r == Some(RootMessage)
    ensures f.UnsupportedOs? ==> r == Some("Unsupported OS: " + f.osId)
    ensures f.UnsupportedVersion? ==> r == Some("Unsupported " + f.osId + " version: " + f.version)
  {
    match f
    case RunAsRoot => Some(RootMessage)
    case UnsupportedOs(osId) => Some("Unsupported OS: " + osId)
    case UnsupportedVersion(osId, version) => Some("Unsupported " + osId + " version: " + version)
    case CommandFailed(_) => None
  }

  // ---------------------------------------------------------------------
  // Checks

  /** `check_user`: an effective uid of 0 is refused. */
  function CheckUser(euid: int): (r: Result<(), Failure>)
    ensures r.Err? <==> euid == 0
    ensures r.Err? ==> r.error == RunAsRoot
  {
    if euid == 0 then Err(RunAsRoot) else Ok(())
  }

  /** Some prefix in `prefixes` starts `version`. */
  predicate AnyPrefix(version: string, prefixes: seq<string>) {
    exists k :: 0 <= k < |prefixes| && StartsWith(version, prefixes[k])
  }

  /** The distribution and version check against a support table. */
  function CheckSupport(table: map<string, seq<string>>, osId: string, version: string): (r: Result<(), Failure>)
    ensures r.Ok? <==> osId in table && (|table[osId]| == 0 || AnyPrefix(version, table[osId]))
    ensures osId !in table ==> r == Err(UnsupportedOs(osId))
    ensures osId in table && r.Err? ==> r == Err(UnsupportedVersion(osId, version))
  {
    if osId !in table then Err(UnsupportedOs(osId))
    else if |table[osId]| > 0 && !AnyPrefix(version, table[osId]) then Err(UnsupportedVersion(osId, version))
    else Ok(())
  }

  // ---------------------------------------------------------------------
  // The command plan

  function Sudo(args: seq<string>): Command {
    Argv(["sudo"] + args)
  }

  const EnableDocker := Sudo(["systemctl", "enable", "--now", "docker"])

  function AddToDockerGroup(user: string): Command {
    Sudo(["usermod", "-aG", "docker", user])
  }

  /** The repository line for apt; `codename` is already lower-cased. */
  function AptRepoLine(osId: string, codename: string): string {
    "deb [arch=$(dpkg --print-architecture) signed-by=" + KeyringFile + "] "
    + "https://download.docker.com/linux/" + osId + " " + codename + " stable"
  }

  function AptPlan(osId: string, codename: string): seq<Command> {
    [ Sudo(["apt-get", "update"]),
      Sudo(["apt-get", "install", "--no-install-recommends", "-y", "ca-certificates", "curl", "gnupg"]),
      Sudo(["install", "-m", "0755", "-d", KeyringDir]),
      Shell("curl -fsSL https://download.docker.com/linux/" + osId + "/gpg | sudo gpg --dearmor -o " + KeyringFile),
      Sudo(["chmod", "a+r", KeyringFile]),
      Sudo(["sh", "-c", "echo \"" + AptRepoLine(osId, codename) + "\" > " + RepoPath]),
      Sudo(["apt-get", "update"]),
      Sudo(["apt-get", "install", "-y"] + DockerPackages) ]
  }

  const FedoraPlan := [
    Sudo(["dnf", "-y", "install", "dnf-plugins-core"]),
    Sudo(["dnf", "config-manager", "--add-repo", "https://download.docker.com/linux/fedora/docker-ce.repo"]),
    Sudo(["dnf", "install", "-y"] + DockerPackages),
    EnableDocker ]

  /** The third command has no `sudo`, as in the script. */
  const RhelPlan := [
    Sudo(["yum", "install", "-y", "yum-utils", "device-mapper-persistent-data", "lvm2"]),
    Sudo(["yum-config-manager", "--add-repo", "https://download.docker.com/linux/rhel/docker-ce.repo"]),
    Argv(["yum", "install", "-y"] + DockerPackages),
    EnableDocker ]

  /** Rocky Linux uses the CentOS repository. */
  const RockyPlan := [
    Sudo(["dnf", "install", "-y", "dnf-plugins-core"]),
    Sudo(["dnf", "config-manager", "--add-repo", "https://download.docker.com/linux/centos/docker-ce.repo"]),
    Sudo(["dnf", "install", "-y"] + DockerPackages),
    EnableDocker ]

  /** The commands for a distribution, ending with adding the user to the
      `docker` group. */
  function Plan(osId: string, codename: string, user: string): seq<Command> {
    var install :=
      if osId == "ubuntu" || osId == "debian" then AptPlan(osId, codename)
      else if osId == "fedora" then FedoraPlan
      else if osId == "rhel" then RhelPlan
      else if osId == "rocky" then RockyPlan
      else [];
    install + [AddToDockerGroup(user)]
  }

  // ---------------------------------------------------------------------
  // Running the plan

  /** `k` is the first command whose exit status is not zero. */
  predicate FirstFailure(status: seq<int>, k: int) {
    0 <= k < |status| && status[k] != 0 && forall i :: 0 <= i < k ==> status[i] == 0
  }

  /** The commands that ran, and the one that failed, if any. */
  datatype Run = Run(ran: seq<Command>, failed: Option<Command>)

  /** `subprocess.run(..., check=True)` for each command in turn: a non-zero
      exit status raises and no later command runs. `status[i]` is the exit
      status command `i` returns when it runs. */
  function RunChecked(cmds: seq<Command>, status: seq<int>): (r: Run)
    requires |status| == |cmds|
    ensures r.failed.None? <==> forall i :: 0 <= i < |status| ==> status[i] == 0
    ensures r.failed.None? ==> r.ran == cmds
    ensures r.failed.Some? ==> exists k :: FirstFailure(status, k) && r.ran == cmds[..k + 1] && r.failed == Some(cmds[k])
  {
    if |cmds| == 0 then Run([], None)
    else if status[0] != 0 then
      assert FirstFailure(status, 0);
      Run([cmds[0]], Some(cmds[0]))
    else
      var rest := RunChecked(cmds[1..], status[1..]);
      if rest.failed.Some? then
        var k :| FirstFailure(status[1..], k) && rest.ran == cmds[1..][..k + 1] && rest.failed == Some(cmds[1..][k]);
        assert FirstFailure(status, k + 1);
        assert [cmds[0]] + cmds[1..][..k + 1] == cmds[..k + 2];
        Run([cmds[0]] + rest.ran, rest.failed)
      else
        assert forall i :: 1 <= i < |status| ==> status[i] == status[1..][i - 1];
        Run([cmds[0]] + rest.ran, None)
  }

  /** The outcome of the script: the commands it ran and the failure it
      exited with, if any. */
  datatype Install = Install(ran: seq<Command>, failure: Option<Failure>)

  /** The whole script. `euid`, `rawId`, `version` and `rawCodename` are what
      the system reports, `user` the login name, and `status` the exit status
      of each planned command. */
  function InstallDocker(
    euid: int, rawId: string, version: string, rawCodename: string, user: string, status: seq<int>): (r: Install)
    requires |status| == |Plan(Lower(rawId), Lower(rawCodename), user)|
    ensures euid == 0 ==> r == Install([], Some(RunAsRoot))
    ensures CheckSupport(SupportedOses, Lower(rawId), version).Err? ==> r.ran == []
    ensures r.ran != [] ==> euid != 0 && CheckSupport(SupportedOses, Lower(rawId), version).Ok?
    ensures r.failure.None? ==> r.ran == Plan(Lower(rawId), Lower(rawCodename), user)
    ensures r.failure.None? <==>
      euid != 0 && CheckSupport(SupportedOses, Lower(rawId), version).Ok?
      && forall i :: 0 <= i < |status| ==> status[i] == 0
    ensures euid != 0 && CheckSupport(SupportedOses, Lower(rawId), version).Err? ==>
      r == Install([], Some(CheckSupport(SupportedOses, Lower(rawId), version).error))
    ensures euid != 0 && CheckSupport(SupportedOses, Lower(rawId), version).Ok? && r.failure.Some? ==>
      var plan := Plan(Lower(rawId), Lower(rawCodename), user);
      exists k :: FirstFailure(status, k) && r.ran == plan[..k + 1] && r.failure == Some(CommandFailed(plan[k]))
  {
    if CheckUser(euid).Err? then Install([], Some(RunAsRoot))
    else
      var osId := Lower(rawId);
      match CheckSupport(SupportedOses, osId, version)
      case Err(f) => Install([], Some(f))
      case Ok(_) =>
        var run := RunChecked(Plan(osId, Lower(rawCodename), user), status);
        Install(run.ran, if run.failed.Some? then Some(CommandFailed(run.failed.value)) else None)
  }

  // ---------------------------------------------------------------------
  // Properties

  /** Versions are matched by prefix only: a point release passes, and so
      does any version that merely begins with the listed digits. */
  lemma VersionIsPrefixMatch()
    ensures CheckSupport(SupportedOses, "ubuntu", "24.04.1").Ok?
    ensures CheckSupport(SupportedOses, "debian", "120").Ok?
    ensures CheckSupport(SupportedOses, "ubuntu", "22.04") == Err(UnsupportedVersion("ubuntu", "22.04"))
    ensures CheckSupport(SupportedOses, "arch", "1") == Err(UnsupportedOs("arch"))
  {
    assert StartsWith("24.04.1", SupportedOses["ubuntu"][0]);
    assert StartsWith("120", SupportedOses["debian"][0]);
    assert !StartsWith("22.04", "24.04") by { assert "22.04"[1] != "24.04"[1]; }
  }

  /** A one-entry version list accepts exactly the versions with that prefix. */
  lemma AnyPrefixSingle(version: string, prefix: string)
    ensures AnyPrefix(version, [prefix]) <==> StartsWith(version, prefix)
  {
    if StartsWith(version, prefix) {
      assert StartsWith(version, [prefix][0]);
    }
  }

  /** The support table, read off: which systems pass, for every id and
      version. */
  lemma SupportedSystems(osId: string, version: string)
    ensures CheckSupport(SupportedOses, osId, version).Ok? <==>
      || (osId == "ubuntu" && StartsWith(version, "24.04"))
      || (osId == "debian" && StartsWith(version, "12"))
      || (osId == "fedora" && StartsWith(version, "39"))
      || ((osId == "rhel" || osId == "rocky") && StartsWith(version, "9"))
  {
    if osId in SupportedOses {
      var prefixes := SupportedOses[osId];
      assert |prefixes| == 1;
      AnyPrefixSingle(version, prefixes[0]);
      assert prefixes == [prefixes[0]];
    }
  }

  /** The apt branch: every package-manager command is `sudo apt-get`, and
      the repository line written is the one for the lower-cased id and
      codename. */
  lemma AptPlanShape(rawId: string, rawCodename: string, user: string)
    requires Lower(rawId) == "ubuntu" || Lower(rawId) == "debian"
    ensures var osId, codename := Lower(rawId), Lower(rawCodename);
      var plan := Plan(osId, codename, user);
      && (forall k :: 0 <= k < |plan| && plan[k].Argv? && |plan[k].args| > 1
            && plan[k].args[1] in {"apt-get", "dnf", "yum", "yum-config-manager"}
            ==> plan[k].args[..2] == ["sudo", "apt-get"])
      && plan[5] == Sudo(["sh", "-c", "echo \"" + AptRepoLine(osId, codename) + "\" > " + RepoPath])
  {
    AptPlanUsesAptGet(Lower(rawId), Lower(rawCodename), user);
  }

  lemma AptPlanUsesAptGet(osId: string, codename: string, user: string)
    requires osId == "ubuntu" || osId == "debian"
    ensures var plan := Plan(osId, codename, user);
      && (forall k :: 0 <= k < |plan| && plan[k].Argv? && |plan[k].args| > 1
            && plan[k].args[1] in {"apt-get", "dnf", "yum", "yum-config-manager"}
            ==> plan[k].args[..2] == ["sudo", "apt-get"])
      && plan[5] == Sudo(["sh", "-c", "echo \"" + AptRepoLine(osId, codename) + "\" > " + RepoPath])
  {
    var plan := Plan(osId, codename, user);
    assert plan == AptPlan(osId, codename) + [AddToDockerGroup(user)];
    forall k | 0 <= k < |plan| && plan[k].Argv? && |plan[k].args| > 1
        && plan[k].args[1] in {"apt-get", "dnf", "yum", "yum-config-manager"}
      ensures plan[k].args[..2] == ["sudo", "apt-get"]
    {
      assert k in {0, 1, 6, 7};
    }
  }

  /** The repository line ends with the distribution, the codename and
      "stable"; `w` is what precedes them. */
  lemma AptRepoLineNames(osId: string, codename: string) returns (w: string)
    ensures AptRepoLine(osId, codename) == w + osId + " " + codename + " stable"
  {
    w := "deb [arch=$(dpkg --print-architecture) signed-by=" + KeyringFile + "] "
      + "https://download.docker.com/linux/";
  }

  /** A run that fails nowhere ran the whole plan, and its last command put
      the user in the `docker` group. */
  lemma {:induction false} SuccessEndsWithDockerGroup(
    euid: int, rawId: string, version: string, rawCodename: string, user: string, status: seq<int>)
    requires |status| == |Plan(Lower(rawId), Lower(rawCodename), user)|
    requires InstallDocker(euid, rawId, version, rawCodename, user, status).failure.None?
    ensures var ran := InstallDocker(euid, rawId, version, rawCodename, user, status).ran;
      |ran| > 0 && ran[|ran| - 1] == AddToDockerGroup(user)
  {
    var plan := Plan(Lower(rawId), Lower(rawCodename), user);
    assert plan[|plan| - 1] == AddToDockerGroup(user);
  }

  /** The dnf and yum plans enable the service just before the group change;
      the apt plan never enables it. */
  lemma ServiceEnabledOnlyOffApt(osId: string, codename: string, user: string)
    ensures osId in {"fedora", "rhel", "rocky"} ==>
      var plan := Plan(osId, codename, user); plan[|plan| - 2] == EnableDocker
    ensures osId in {"ubuntu", "debian"} ==> EnableDocker !in Plan(osId, codename, user)
  {
    if osId in {"ubuntu", "debian"} {
      var plan := Plan(osId, codename, user);
      forall k | 0 <= k < |plan| ensures plan[k] != EnableDocker {
        if plan[k].Argv? && |plan[k].args| > 1 {
          assert plan[k].args[1] != "systemctl";
        }
      }
    }
  }
}
