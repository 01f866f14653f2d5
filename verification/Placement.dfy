/** Placement of tasks on a single host (internal/executor/arch.go, os.go and the gates of executor.go). */
module Placement {
  import opened Common

  datatype Architecture = AMD64 | ARM64

  datatype Instance =
    | Container(architecture: Option<Architecture>, windows: bool)
    | FreeBSD
    | Prebuilt            // builds the image of a Dockerfile
    | Tart
    | Vetu
    | Parallels
    | OtherInstance

  datatype Task = Task(id: int, inst: Instance, requiredIDs: seq<int>)

  /** The machine `cirrus run` runs on; architectures may be supported natively or by emulation. */
  datatype Host = Host(os: string, amd64: bool, arm64: bool) {
    predicate SupportsArch(a: Architecture) {
      match a
      case AMD64 => amd64
      case ARM64 => arm64
    }

    predicate SupportsOS(required: string) {
      os == required
    }
  }

  // ---------- what a task requires ----------

  function ContainerArch(t: Task): Option<Architecture> {
    if t.inst.Container? then Some(if t.inst.architecture.Some? then t.inst.architecture.value else AMD64) else None
  }

  function ContainerOS(t: Task): Option<string> {
    if t.inst.Container? then Some(if t.inst.windows then "windows" else "linux") else None
  }

  ghost predicate Dependent(all: seq<Task>, builder: Task, t: Task) {
    t in all && builder.id in t.requiredIDs
  }

  ghost predicate HasDependent(all: seq<Task>, builder: Task) {
    exists t :: Dependent(all, builder, t)
  }

  /** A container runs on the architecture it names, and on AMD64 if it names none. */
  ghost predicate BuiltFor(inst: Instance, a: Architecture) {
    inst.Container? && (inst.architecture == Some(a) || (inst.architecture == None && a == AMD64))
  }

  ghost predicate WindowsContainer(inst: Instance) {
    inst.Container? && inst.windows
  }

  /** The task needs architecture `a`; a builder needs what all its dependents, of which there is one, need. */
  ghost predicate ArchRequired(all: seq<Task>, task: Task, a: Architecture) {
    match task.inst
    case Container(_, _) => BuiltFor(task.inst, a)
    case FreeBSD => a == AMD64
    case Prebuilt => HasDependent(all, task) && forall t :: Dependent(all, task, t) ==> BuiltFor(t.inst, a)
    case _ => false
  }

  /** The task needs the host to run this OS; Linux containers run anywhere. */
  ghost predicate OSRequired(all: seq<Task>, task: Task, os: string) {
    match task.inst
    case Container(_, _) => WindowsContainer(task.inst) && os == "windows"
    case Tart => os == "darwin"
    case Vetu => os == "linux"
    case Parallels => os == "darwin"
    case Prebuilt =>
      && os == "windows" && HasDependent(all, task)
      && forall t :: Dependent(all, task, t) ==> WindowsContainer(t.inst)
    case _ => false
  }

  // ---------- deciding what a task requires ----------

  method RequiresTask(task: Task, id: int) returns (r: bool)
    ensures r <==> id in task.requiredIDs
  {
    for i := 0 to |task.requiredIDs|
      invariant id !in task.requiredIDs[..i]
    {
      if task.requiredIDs[i] == id {
        return true;
      }
    }
    return false;
  }

  method TaskArch(task: Task, all: seq<Task>) returns (arch: Option<Architecture>)
    ensures forall a :: arch == Some(a) <==> ArchRequired(all, task, a)
  {
    match task.inst {
      case Container(_, _) =>
        arch := ContainerArch(task);
      case FreeBSD =>
        arch := Some(AMD64);
      case Prebuilt =>
        arch := None;
        for i := 0 to |all|
          invariant arch.None? ==> forall t :: t in all[..i] ==> !Dependent(all, task, t)
          invariant arch.Some? ==> exists t :: Dependent(all, task, t) && ContainerArch(t) == arch
          invariant arch.Some? ==>
            forall t :: t in all[..i] && Dependent(all, task, t) ==> ContainerArch(t) == arch
        {
          var other := all[i];
          assert all[..i + 1] == all[..i] + [other];
          var dependsOnBuilder := RequiresTask(other, task.id);
          if dependsOnBuilder {
            assert Dependent(all, task, other);
            var dependentArch := ContainerArch(other);
            if dependentArch.None? {
              return None;
            }
            if arch.None? {
              arch := dependentArch;
            } else if dependentArch != arch {
              DisagreeingDependents(all, task, other, arch);
              return None;
            }
          }
        }
        assert all[..|all|] == all;
      case _ =>
        arch := None;
    }
  }

  lemma DisagreeingDependents(all: seq<Task>, task: Task, other: Task, arch: Option<Architecture>)
    requires task.inst.Prebuilt? && Dependent(all, task, other) && ContainerArch(other) != arch
    requires exists t :: Dependent(all, task, t) && ContainerArch(t) == arch
    ensures forall a :: !ArchRequired(all, task, a)
  {
  }

  method TaskOS(task: Task, all: seq<Task>) returns (os: Option<string>)
    ensures forall o :: os == Some(o) <==> OSRequired(all, task, o)
  {
    os := None;
    match task.inst {
      case Container(_, windows) =>
        os := if windows then Some("windows") else None;
      case Tart =>
        os := Some("darwin");
      case Vetu =>
        os := Some("linux");
      case Parallels =>
        os := Some("darwin");
      case Prebuilt =>
        var seenWindows, seenOther := false, false;
        for i := 0 to |all|
          invariant seenWindows ==> HasDependent(all, task)
          invariant seenWindows || seenOther <==> exists t :: t in all[..i] && Dependent(all, task, t)
          invariant !seenOther <==>
            forall t :: t in all[..i] && Dependent(all, task, t) ==> ContainerOS(t) == Some("windows")
        {
          var other := all[i];
          assert all[..i + 1] == all[..i] + [other];
          var dependsOnBuilder := RequiresTask(other, task.id);
          if dependsOnBuilder {
            assert Dependent(all, task, other);
            var required := ContainerOS(other);
            if required == Some("windows") {
              seenWindows := true;
            } else {
              seenOther := true;
            }
          }
        }
        assert all[..|all|] == all;
        if seenWindows && !seenOther {
          os := Some("windows");
        }
      case _ =>
    }
  }

  // ---------- the gates ----------

  ghost predicate ArchSkips(host: Host, all: seq<Task>, task: Task) {
    (ArchRequired(all, task, AMD64) && !host.amd64) || (ArchRequired(all, task, ARM64) && !host.arm64)
  }

  ghost predicate OSSkips(host: Host, all: seq<Task>, task: Task) {
    exists os :: OSRequired(all, task, os) && host.os != os
  }

  /** The architecture and OS gates at the head of runSingleTask. */
  method Skipped(host: Host, task: Task, all: seq<Task>) returns (skipped: bool)
    ensures skipped <==> ArchSkips(host, all, task) || OSSkips(host, all, task)
    ensures task.inst.Container? ==>
      (skipped <==>
         || (if task.inst.architecture == Some(ARM64) then !host.arm64 else !host.amd64)
         || (task.inst.windows && host.os != "windows"))
    ensures task.inst.FreeBSD? ==> (skipped <==> !host.amd64)
    ensures task.inst.Tart? || task.inst.Parallels? ==> (skipped <==> host.os != "darwin")
    ensures task.inst.Vetu? ==> (skipped <==> host.os != "linux")
    ensures task.inst.OtherInstance? ==> !skipped
  {
    var arch := TaskArch(task, all);
    assert arch == Some(AMD64) <==> ArchRequired(all, task, AMD64);
    assert arch == Some(ARM64) <==> ArchRequired(all, task, ARM64);
    assert arch.Some? ==> arch.value == AMD64 || arch.value == ARM64;
    if arch.Some? && !host.SupportsArch(arch.value) {
      assert ArchRequired(all, task, arch.value);
      return true;
    }
    var os := TaskOS(task, all);
    assert os == Some("windows") <==> OSRequired(all, task, "windows");
    assert os == Some("darwin") <==> OSRequired(all, task, "darwin");
    assert os == Some("linux") <==> OSRequired(all, task, "linux");
    if os.Some? && !host.SupportsOS(os.value) {
      assert OSRequired(all, task, os.value);
      return true;
    }
    return false;
  }

  /** A skipped builder has dependents, and each of them is skipped for the same reason. */
  lemma SkippedBuilderIsNotNeeded(host: Host, all: seq<Task>, builder: Task)
    requires builder.inst.Prebuilt?
    ensures ArchSkips(host, all, builder) ==>
      HasDependent(all, builder) && forall t :: Dependent(all, builder, t) ==> ArchSkips(host, all, t)
    ensures OSSkips(host, all, builder) ==>
      HasDependent(all, builder) && forall t :: Dependent(all, builder, t) ==> OSSkips(host, all, t)
  {
    if ArchSkips(host, all, builder) {
      var a := if ArchRequired(all, builder, AMD64) && !host.amd64 then AMD64 else ARM64;
      assert ArchRequired(all, builder, a) && !host.SupportsArch(a);
      forall t | Dependent(all, builder, t) ensures ArchSkips(host, all, t) {
        assert BuiltFor(t.inst, a) && ArchRequired(all, t, a);
      }
    }
    if OSSkips(host, all, builder) {
      var os :| OSRequired(all, builder, os) && !host.SupportsOS(os);
      forall t | Dependent(all, builder, t) ensures OSSkips(host, all, t) {
        assert OSRequired(all, t, os);
      }
    }
  }

  /**
   On any host, the architecture gate skips a builder exactly when it has dependents and all of them
   are containers for one and the same architecture that the host does not support.
   */
  lemma BuilderArchExactly(host: Host, all: seq<Task>, builder: Task)
    requires builder.inst.Prebuilt?
    ensures ArchSkips(host, all, builder) <==>
      HasDependent(all, builder) &&
      exists a :: !host.SupportsArch(a) && forall t :: Dependent(all, builder, t) ==> BuiltFor(t.inst, a)
  {
    if ArchSkips(host, all, builder) {
      var a := if ArchRequired(all, builder, AMD64) && !host.amd64 then AMD64 else ARM64;
      assert ArchRequired(all, builder, a) && !host.SupportsArch(a);
    }
    if
      && HasDependent(all, builder)
      && exists a :: !host.SupportsArch(a) && forall t :: Dependent(all, builder, t) ==> BuiltFor(t.inst, a)
    {
      var a :| !host.SupportsArch(a) && forall t :: Dependent(all, builder, t) ==> BuiltFor(t.inst, a);
      assert ArchRequired(all, builder, a) && (a == AMD64 || a == ARM64);
    }
  }

  /** On a host that supports one of the architectures, at most the other one is missing. */
  function Missing(host: Host): Architecture {
    if host.amd64 then ARM64 else AMD64
  }

  lemma SkippedContainer(host: Host, all: seq<Task>, t: Task)
    requires t.inst.Container? && (host.amd64 || host.arm64)
    ensures ArchSkips(host, all, t) <==> BuiltFor(t.inst, Missing(host)) && !host.SupportsArch(Missing(host))
  {
    assert ArchRequired(all, t, AMD64) <==> BuiltFor(t.inst, AMD64);
    assert ArchRequired(all, t, ARM64) <==> BuiltFor(t.inst, ARM64);
  }

  /**
   On a host that supports one of the architectures, that is the case exactly when the builder has
   dependents and all of them are containers skipped for their architecture.
   */
  lemma BuilderSkippedByArch(host: Host, all: seq<Task>, builder: Task)
    requires builder.inst.Prebuilt? && (host.amd64 || host.arm64)
    ensures ArchSkips(host, all, builder) <==>
      HasDependent(all, builder) &&
      forall t :: Dependent(all, builder, t) ==> t.inst.Container? && ArchSkips(host, all, t)
  {
    BuilderArchExactly(host, all, builder);
    forall t: Task | t.inst.Container?
      ensures ArchSkips(host, all, t) <==>
        BuiltFor(t.inst, Missing(host)) && !host.SupportsArch(Missing(host))
    {
      SkippedContainer(host, all, t);
    }
  }

  /** The OS gate skips a builder exactly when it has dependents and all of them are containers skipped for their OS. */
  lemma BuilderSkippedByOS(host: Host, all: seq<Task>, builder: Task)
    requires builder.inst.Prebuilt?
    ensures OSSkips(host, all, builder) <==>
      HasDependent(all, builder) &&
      forall t :: Dependent(all, builder, t) ==> t.inst.Container? && OSSkips(host, all, t)
  {
    SkippedBuilderIsNotNeeded(host, all, builder);
    if
      && HasDependent(all, builder)
      && forall t :: Dependent(all, builder, t) ==> t.inst.Container? && OSSkips(host, all, t)
    {
      forall t | Dependent(all, builder, t) ensures ContainerOS(t) == Some("windows") && !host.SupportsOS("windows") {
        var os :| OSRequired(all, t, os) && !host.SupportsOS(os);
      }
      var t :| Dependent(all, builder, t);
      assert OSRequired(all, builder, "windows");
    }
  }

  /** Dependents that are all skipped, but for different reasons, do not make the builder skipped. */
  lemma MixedReasonsDoNotSkip(host: Host, all: seq<Task>, builder: Task, other: Task, windows: Task)
    requires builder.inst.Prebuilt? && Dependent(all, builder, other) && Dependent(all, builder, windows)
    requires other.inst.Container? && !other.inst.windows && ArchSkips(host, all, other)
    requires windows.inst.Container? && windows.inst.windows && !ArchSkips(host, all, windows)
    requires host.os != "windows"
    ensures OSSkips(host, all, windows) && !ArchSkips(host, all, builder) && !OSSkips(host, all, builder)
  {
    assert OSRequired(all, windows, "windows");
    SkippedBuilderIsNotNeeded(host, all, builder);
    assert ContainerOS(other) == Some("linux");
  }
}
