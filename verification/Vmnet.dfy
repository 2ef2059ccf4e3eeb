/** The network dependencies of the machine: the socket_vmnet binaries, the sudoers file, and, once both are there,
    the network snippet at the end of default.yaml. */
module Vmnet {
  import opened Wrappers
  import opened Dependencies
  import opened LimaConfig

  /** What the group reads and changes on the host. */
  datatype Host = Host(binaries: bool, sudoers: bool, yaml: DefaultYaml)

  /** How an install turns out: what it leaves installed, and whether it reports success. */
  datatype Attempt = Attempt(leaves: bool, ok: bool)

  datatype DepFaults = DepFaults(binaries: Attempt, sudoers: Attempt, read: bool, append: bool)

  /** The file parses and has one network, Finch's: a second `networks` key makes it unreadable. */
  predicate HasNetworkSection(y: DefaultYaml) { y.Yaml? && y.networks == 1 }

  function AppendNetwork(y: DefaultYaml): DefaultYaml {
    if y.NoFile? then Yaml(None, 1) else y.(networks := y.networks + 1)
  }

  function Binaries(f: DepFaults): Dependency<Host> {
    Dependency(true, (h: Host) => h.binaries, (h: Host) => (h.(binaries := f.binaries.leaves), f.binaries.ok))
  }

  function SudoersFile(f: DepFaults): Dependency<Host> {
    Dependency(true, (h: Host) => h.sudoers, (h: Host) => (h.(sudoers := f.sudoers.leaves), f.sudoers.ok))
  }

  function DefaultLimaConfig(f: DepFaults): Dependency<Host> {
    Dependency(false,
               (h: Host) => !f.read && HasNetworkSection(h.yaml),
               (h: Host) => if !h.binaries || !h.sudoers || f.append then (h, false)
                            else (h.(yaml := AppendNetwork(h.yaml)), true))
  }

  /** The group, in the order in which it is installed. */
  function Group(f: DepFaults): Deps<Host> { [Some(Binaries(f)), Some(SudoersFile(f)), Some(DefaultLimaConfig(f))] }

  /** The host after the group's turn. */
  function Installed(h: Host, f: DepFaults): Host { World(Group(f), h, 3) }

  /** Each prerequisite is there afterwards if it was before, or if its install left it there, whatever happened to
      the others; the file changes only by one snippet at its end, and only with both prerequisites there. */
  lemma InstalledIs(h: Host, f: DepFaults)
    ensures var h' := Installed(h, f);
            && h'.binaries == (h.binaries || f.binaries.leaves)
            && h'.sudoers == (h.sudoers || f.sudoers.leaves)
            && h'.yaml == (if (!f.read && HasNetworkSection(h.yaml)) || !h'.binaries || !h'.sudoers || f.append
                           then h.yaml else AppendNetwork(h.yaml))
  {
    var g := Group(f);
    var h1, h2 := World(g, h, 1), World(g, h, 2);
    assert World(g, h, 0) == h;
    assert h1 == Installing(g[0], h);
    assert h2 == Installing(g[1], h1);
    assert Installed(h, f) == Installing(g[2], h2);
  }

  /** The snippet is appended only with both prerequisites installed, even when an install before it failed. */
  lemma AppendedOnlyWithPrerequisites(h: Host, f: DepFaults)
    requires Installed(h, f).yaml != h.yaml
    ensures Installed(h, f).binaries && Installed(h, f).sudoers
    ensures Installed(h, f).yaml == AppendNetwork(h.yaml)
  {
    InstalledIs(h, f);
  }

  /** A file with at most one snippet keeps at most one, unless it has one and cannot be read just now. */
  lemma OneSnippetIff(h: Host, f: DepFaults)
    requires h.yaml.Yaml? ==> h.yaml.networks <= 1
    ensures (Installed(h, f).yaml.Yaml? ==> Installed(h, f).yaml.networks <= 1)
            <==> !(HasNetworkSection(h.yaml) && f.read && !f.append
                   && Installed(h, f).binaries && Installed(h, f).sudoers)
  {
    InstalledIs(h, f);
  }

  /** Once there are two snippets, no successful installation ever helps: each adds another. */
  lemma {:induction false} TwoSnippetsGrow(h: Host, fs: seq<DepFaults>)
    requires h.yaml.Yaml? && h.yaml.networks >= 2 && h.binaries && h.sudoers
    requires forall i :: 0 <= i < |fs| ==> !fs[i].append
    ensures InstalledAll(h, fs).yaml.Yaml? && InstalledAll(h, fs).yaml.networks == h.yaml.networks + |fs|
    ensures !HasNetworkSection(InstalledAll(h, fs).yaml)
    decreases |fs|
  {
    if fs != [] {
      InstalledIs(h, fs[0]);
      TwoSnippetsGrow(Installed(h, fs[0]), fs[1..]);
    }
  }

  function InstalledAll(h: Host, fs: seq<DepFaults>): Host
    decreases |fs|
  {
    if fs == [] then h else InstalledAll(Installed(h, fs[0]), fs[1..])
  }
}
