# Finch, modelled and verified in Dafny

Finch runs containers on macOS inside a Lima virtual machine. This project models the parts of it that carry state or
rewrite text, and proves what they promise, or exactly when they keep the promise:

- **The argument rewriter** that turns a docker-style line of `run`, `exec` or `compose` into the line nerdctl gets in
  the machine. `CommandLine` is an independent reading of such lines, by characters and flag tables; `Nerdctl` is what
  the rewriter computes, `NerdctlRun` the loops over an argument array that compute it. `NerdctlMeaning` and
  `NerdctlTheorems`: a line and its rewriting are read as the same options and command, exactly if no bind mount has a
  value cut at a second `=`, and as the same environment exactly if no variable set in a group of short flags is
  contradicted. `NerdctlCanonical`: exactly the canonical lines are left as they are; `NerdctlIdempotence`: for exactly
  which lines the rewriting is such a line. `NerdctlGroups`, `NerdctlEndings`, `NerdctlCommand`, `NerdctlOtherForms` and
  `NerdctlLimits` have the forms in which a line or its trailing command loses its meaning, each with its exact
  condition. `EnvOrder` is the insertion-ordered environment, `Mounts` the value of `--mount`.
- **The user-data disk** (`Disk`, `DiskTheorems`): renames, removals, links and conversions over three paths, any of
  which may fail at any point.
- **The credential daemon** (`CredDaemon`, `CredDaemonTheorems`, `CredHost`): command line and daemons as interleaved
  steps over a PID file, a socket and signals.
- **The virtual machine's life** (`VirtualMachine`, `VirtualMachineTheorems`): init, start, stop and remove over the
  configuration files (`LimaConfig`), dependencies (`Dependencies`, `Vmnet`), the disk and the daemon together.
- **Text**: replacing strings in output (`Stdout`) and redacting addresses (`Redact`, over the regular-expression
  engine of `Regex`) are instances of one leftmost-replacement theorem (`Replacement`); the lines added to `.bashrc`
  (`Bashrc`) and the environment of limactl (`CommandEnv`).

`dafny verify dfyconfig.toml` checks the whole project.

## How the model reads the source

- What the surroundings decide (failing system calls, what `limactl` answers, the order in which Go visits a map, the
  files and variables of the host, the order in which processes take steps) is a parameter of the model, so every
  result holds for all of it. A run-time panic of the Go code is the result `Err(Panic)`.
- Operations that change state in place are methods on a class or an array, each proved equal to a function of the old
  state; the properties are proved about those functions.
- `CommandLine` reads the value of `--mount` on its own: entries are separated by commas, the first `=` of an entry ends
  its key, white space around key and value is not part of them, and a later entry overrides an earlier one with the
  same key. Quotation marks have no meaning, as in the code. The consistency of a bind mount has no effect in the
  machine, so a rewritten mount may leave it out.
- `NerdctlMeaning.WellFormed` spells out the forms of options that the comments of the rewriter document. All else is
  well formed; what is not:
  - an option that looks at the next token and has none: `-e...`, `--env...`, a group of short flags, a flag without
    its value; or a group that hands `-e` over to the last token;
  - a separate value that begins with `-` and has no digit after it; of a bind mount, a key that does;
  - a separate variable or file name that is itself the token `--mount`;
  - a value glued to a short flag that holds `=` and does not begin with it, and `-e=...`; a value after a group that
    is empty or holds `=`, and a variable after a group that is empty or begins with `=`;
  - a group that is complete in its token but has a `-` inside, or whose last character is a value flag and no earlier
    one is (such as `-d=e`); a group with a letter that is no flag;
  - `--add-host` as two tokens or without `:`; other flags that begin with `--add-host` or `--env`; `--help` and
    `--debug` with a value; `--` and `--=...` where an option could stand;
  - a trailing command with a token `--mount` or `--mount=...`, since the mount handler runs on it too.

  For each of these forms a lemma of `NerdctlLimits`, `NerdctlEndings`, `NerdctlGroups`, `NerdctlCommand` or
  `NerdctlOtherForms` below gives what the scan makes of it, and under which condition, if any, it arrives as it was
  meant. The meaning of whole lines that have such a form is compared only where a row says so.
- Assumed of the surroundings: one Finch command at a time and no reuse of PIDs; SIGKILL is immediate, PID files can be
  written and SIGTERM delivered; reading a link that is none yields the empty path (pkg/disk/disk_darwin.go:59-60);
  only Finch changes the machine, only a start runs it, and limactl does not create an instance that exists; a write
  that fails leaves a profile as it was; a YAML file with two `networks` keys cannot be parsed.

Where code and comments disagree, the model follows the code. A comment names `-e="<value>"` as a supported form
(cmd/finch/nerdctl_remote.go:184), but the code takes the `=` for the beginning of the value. A comment calls linking a
no-op where a link exists (pkg/disk/disk_darwin.go:182-183), but linking over an existing entry fails.

## What does not hold

Each of these is proved, for the whole family of inputs, with the condition under which the promise is kept.

- A variable in a group of short flags (`-ieHOME`) is passed on as typed: it does not get the host's value, and an
  earlier `-e` or a file is moved behind it and wins. The line keeps its environment if and only if nothing that is
  moved gives such a variable another value.
- Without a condition, rewriting is not idempotent: `--name=-x` is torn apart by the second rewriting, a glued value at
  the end of a line without command is split off only by it, a group left at the end makes it panic, and
  `--debug run -e HOME` leaves a line that reads as `run` with options.
- A bind mount is cut where an entry in force holds a second `=`: `--mount type=bind,source=/a=b,target=/c` binds `/a`.
  A line keeps what its options say if and only if it has no such mount.
- The mount handler runs on the trailing command too: in
  `docker:dind docker run --mount=type=bind,source=/a,target=/b,consistency=cached img` the arguments of the
  container's own command are rewritten. In every order of map visits a command is passed on unchanged if and only if
  no value that the handler reaches in it is missing, or a bind mount that some order prints differently; every bind
  mount with any field but its type is such a mount.
- After `run` or `exec`, an image or a container named `run` is taken for the command once more: `finch exec run -...`
  passes on the command's arguments, where they are well formed as a line, unchanged but for the spelling of mounts if
  and only if they are settled.
- A separate value that begins with `-` is lost: a short flag is dropped, and `--name -x` becomes `--` `name`; so is a
  separate bind mount, if Go happens to print a key first that begins with `-`.
- A separate `--add-host name:ip` keeps its meaning if and only if no variable is set and no mount cut before it, and no
  later option needs rewriting. Without `:` it panics.
- `--` before a value and a command keeps the meaning if and only if no variable is set and no mount cut before it:
  `-e A=1 -- img` becomes `-- img -e A=1`. Before anything that does not look like a value it is dropped.
- After supported options, a last token panics if and only if it is a group of several short flags or `--add-host...`
  without `:`; a trailing command is refused if and only if it ends in `--mount`.
- A variable, file or flag without value in the last token is not collected: it is passed on as it is, before the
  variables that are.
- `--debug=true img` becomes `--debug true img`, so that `true` is the image; so does `--help=...`, and `--=...`.
- The value after a group of short flags reaches nerdctl with its flag if and only if it holds no `=` or ends the line:
  `-itl env=prod img` makes `prod` the image. An empty one is passed over, and the token after it taken instead.
- A separate variable or file named `--mount` has the token after it rewritten as a mount.
- A value glued to a short flag stays whole if and only if it holds no `=` or begins with one; `-e=...` sets no variable
  that it names.
- If the persistent disk and Lima's own are both qcow2 files, three runs can lose the user data; so can one run in
  which `Stat` wrongly misses the persistent disk.
- With Rosetta the machine is a vz one whatever type is configured, but the disk is converted by the configured type.
- A stop that cannot find the path of its executable leaves the daemon alive under a stopped machine.
- Whenever a daemon may fail while serving, it may still live, unnamed, beside the next one.
- With vmType "wsl2", which a start accepts, override.yaml does not name the disk.
- A `limactl ls` that fails silently lets an init rewrite the settings of a machine that exists, and, if it gets that
  far, run the disk manager on the disk of a running one. No other command gets past its check wrongly.
- If default.yaml cannot be read once, it may get a second network snippet, and then one more at every start.
- Moving Finch to another directory and back leaves the other directory in effect in the machine's shell.
- Of several settings of a variable only the first is replaced, though a process sees the last.

## Model

| member | source | states |
|---|---|---|
| NerdctlTheorems.RewritingPreservesMeaning | cmd/finch/nerdctl_remote.go:93-289 | for every well-formed line with readable files, the rewritten line is read as the same number of options with the same names and order (less `--debug`) and the same command; each option says the same (host-gateway resolved, consistency of bind mounts left out) if and only if no entry in force of a bind mount holds a second `=`; the whole meaning is the same if and only if, besides, nothing moved contradicts a variable set last in a group of short flags; and it needs no file or variable of the host if and only if every such variable comes with its value |
| NerdctlTheorems.PlainLinesKeepTheirMeaning | cmd/finch/nerdctl_remote.go:93-289 | without a variable in a group, a well-formed readable line keeps options, environment and command if and only if no bind mount in it is cut at a second `=`, and names no file or unset variable any more |
| NerdctlTheorems.GroupedVariablesIff | cmd/finch/nerdctl_remote.go:205-211 | moving all other variables behind those in groups keeps the environment if and only if no variable that a group sets last is given another value by a file or by a flag of its own |
| NerdctlGroups.GroupedVariableIsUnresolved | cmd/finch/nerdctl_remote.go:205-211 | `-feX` is passed on unchanged: it comes with its value if and only if X holds `=` |
| NerdctlGroups.EarlierVariableWins | cmd/finch/nerdctl_remote.go:268-289 | `-e K=V -feK=W` means W, and its rewriting means V |
| NerdctlGroups.HomeIsUnresolved | cmd/finch/nerdctl_remote.go:205-211 | `-ieHOME img` is such a line |
| NerdctlGroups.FirstSettingOfTwoWins | cmd/finch/nerdctl_remote.go:268-289 | `-e A=2 -ieA=1 img` sets 1, and is rewritten to a line that sets 2 |
| NerdctlGroups.GroupIsPassedIff | cmd/finch/nerdctl_remote.go:454-503 | a group, whatever its characters, is passed on unless its last character is a value flag and no earlier one is; then that one is put in front of the next token |
| NerdctlTheorems.RewrittenLine | cmd/finch/nerdctl_remote.go:268-289 | the result is prefix, options, environment and unchanged command; the environment has distinct keys in first-mention order over file entries then flag entries outside groups, each with its last value |
| NerdctlTheorems.EnvironmentValues | cmd/finch/nerdctl_remote.go:268-281 | a variable is set if and only if some flag or file line resolves it; it has the value of the last flag that does, wherever it stands, else that of the last file line that does |
| NerdctlTheorems.UnsetVariableIsNoSetting | cmd/finch/nerdctl_remote.go:548-578 | naming a variable that the host does not have changes nothing, wherever on the line |
| NerdctlTheorems.RefusedIffUnreadable | cmd/finch/nerdctl_remote.go:166-176 | a well-formed line is refused if and only if one of its environment files cannot be opened or read |
| NerdctlMeaning.TrailingCommandUnchanged | cmd/finch/nerdctl_remote.go:139-143 | from the first token that is no option on, every token is passed on unchanged, in order, however flag-like, provided that no token makes the mount handler run |
| NerdctlCommand.CommandUnchangedIff | cmd/finch/nerdctl_remote.go:117-143 | without that proviso: in every order of map visits a command is passed on unchanged, if and only if no value that the handler reaches in it is missing, or a bind mount that some order prints differently |
| NerdctlCommand.TrailingCommandUnchangedIff | cmd/finch/nerdctl_remote.go:117-143 | the same for the command behind any supported options |
| NerdctlCommand.BareBindsOnly | cmd/finch/nerdctl.go:321-379 | a bind mount that is printed as it is in every order has no field but its type |
| NerdctlCommand.ConsistencyInCommandIsLost | cmd/finch/nerdctl.go:321-379 | `--mount=V` in a command, with a consistency in a bind mount V, is changed in every order |
| NerdctlCommand.InnerDockerIsChanged | cmd/finch/nerdctl.go:321-379 | `docker:dind docker run --mount=type=bind,source=S,target=T,consistency=C img` is such a command, for all S, T and C |
| NerdctlMeaning.HeadIsFaithful | cmd/finch/nerdctl_remote.go:144-247 | whatever supported option stands at the head, the scan of it adds arguments and entries that are read as that option |
| NerdctlMeaning.ScanPreserves | cmd/finch/nerdctl_remote.go:115-266 | the scan of a well-formed line keeps its options, collects the entries of its files and flags, and keeps its command |
| NerdctlMeaning.OpenGroupHead | cmd/finch/nerdctl_remote.go:454-503 | a group of short flags that ends in a value flag is read as its flags, then that flag with the next token |
| NerdctlIdempotence.RewritingIsIdempotentIff | cmd/finch/nerdctl_remote.go:93-289 | the rewriting of a well-formed, readable line is well formed and repeated by another rewriting, with other files, variables and map orders, if and only if: values that are written apart look like values; at the end no group is left without a token after it, and no glued value with one; and a command that is left alone is there and, if it reads as `run` with options, is canonical. Repeated is every token but for the order of entries in bind mounts; these too if Go keeps its order |
| NerdctlIdempotence.LineSettledIff | cmd/finch/nerdctl_remote.go:93-289 | the same for the options of a line, in front of any settled end |
| NerdctlCanonical.SettledIff | cmd/finch/nerdctl_remote.go:93-289 | exactly the canonical lines (options as they are passed on, then variables with values, each once, then the command) are left as they are |
| NerdctlLimits.SplitOffValue | cmd/finch/nerdctl_remote.go:505-546 | `--name=-x`: its rewriting is not well formed, for every long flag and every value that looks like a flag |
| NerdctlLimits.NameThatLooksLikeAFlag | cmd/finch/nerdctl_remote.go:505-546 | `--name=-x img` is such a line |
| NerdctlLimits.DebugBeforeRun | cmd/finch/nerdctl_remote.go:97-108 | `--debug run -...` is rewritten to its command, which is repeated if and only if the options after `run` are canonical |
| NerdctlLimits.DebugRunHome | cmd/finch/nerdctl_remote.go:97-108 | `--debug run -e HOME img` is not |
| NerdctlLimits.ImageNamedRun | cmd/finch/nerdctl_remote.go:95-108 | after a first argument `run` that is an image or a container, a well-formed remainder is passed on unchanged, but for the spelling of mounts, if and only if it is settled |
| NerdctlLimits.ContainerNamedRun | cmd/finch/nerdctl_remote.go:95-108 | `exec run -e HOME ls` is changed, though nothing of it is an option, for every variable named without value and every command |
| NerdctlLimits.NoCommandNotIdempotent | cmd/finch/nerdctl_remote.go:230-247 | without a command, a glued long value behind a variable is kept by the first rewriting and split off by the second |
| NerdctlLimits.SeparateValueIff | cmd/finch/nerdctl_remote.go:505-546 | a separate value reaches nerdctl with its flag if and only if it looks like one; what happens otherwise |
| NerdctlLimits.GluedValueIff | cmd/finch/nerdctl_remote.go:505-546 | a value glued to a short flag stays whole if and only if it holds no `=` or begins with one |
| NerdctlLimits.GluedVariableIff | cmd/finch/nerdctl_remote.go:548-578 | `-eX` sets what it says if and only if X does not begin with `=` |
| NerdctlOtherForms.GluedShortScan | cmd/finch/nerdctl_remote.go:505-546 | before another token, a value glued to a short flag becomes a token of its own, cut at the first `=` if it holds one |
| NerdctlOtherForms.GluedVariableScan | cmd/finch/nerdctl_remote.go:548-578 | `-eX` sets the entry X, even if X begins with `=` |
| NerdctlOtherForms.GroupValueIff | cmd/finch/nerdctl_remote.go:454-503 | the value after a group reaches nerdctl with its flag if and only if it holds no `=` or ends the line; how it is cut otherwise |
| NerdctlOtherForms.EmptyGroupValue | cmd/finch/nerdctl_remote.go:454-503 | an empty value after a group is passed over, and its flag takes the token after it |
| NerdctlOtherForms.GroupVariableIff | cmd/finch/nerdctl_remote.go:454-503 | a variable after a group is collected as it was meant, unless it is empty, when the next token is taken instead, or ends the line, when it is passed on |
| NerdctlOtherForms.GluedFixedScan | cmd/finch/nerdctl_remote.go:230-247 | `--debug=V`, `--help=V` and `--=V` become two tokens, unless they end the line |
| NerdctlOtherForms.GluedFixedIsRead | cmd/finch/nerdctl_remote.go:230-247 | before a command, `--debug=V` and `--help=V` are read as options with a value, and their rewritings make V the first word of the command |
| NerdctlOtherForms.AddHostPrefixScan | cmd/finch/nerdctl_remote.go:149-165 | of every flag that begins with `--add-host` and goes on, the eleventh letter is taken for `=`; without `:` behind it the code panics |
| NerdctlOtherForms.EnvPrefixScan | cmd/finch/nerdctl_remote.go:181-196 | every flag that begins with `--env`, if with no `-file`, sets what follows its `=`, or itself if it has none |
| NerdctlOtherForms.EnvFilePrefixScan | cmd/finch/nerdctl_remote.go:166-180 | of every flag that begins with `--env-file` and goes on, the eleventh letter is taken for `=`; the file behind it is read, or the command fails |
| NerdctlOtherForms.VariableNamedMount | cmd/finch/nerdctl_remote.go:117-138 | after `-e --mount` the token that follows is rewritten as a mount, or the line is refused if there is none |
| NerdctlOtherForms.FileNamedMount | cmd/finch/nerdctl_remote.go:117-138 | the same after `--env-file --mount` |
| NerdctlEndings.SeparateAddHostScan | cmd/finch/nerdctl_remote.go:149-157 | the address after `--add-host` is resolved and then scanned as if it were no value; without `:` the code panics |
| NerdctlEndings.SeparateAddHostIff | cmd/finch/nerdctl_remote.go:149-157 | a separate `--add-host` keeps the line's meaning if and only if no variable is set and no bind mount cut before it and every later option means the same unrewritten |
| NerdctlEndings.SeparateAddHostPanicsIff | cmd/finch/nerdctl_remote.go:149-157 | after supported options and before a command, it makes the code panic if and only if its value has no `:` |
| NerdctlEndings.LastFlagIsPassedOn | cmd/finch/nerdctl_remote.go:166-247 | a variable, a file, `--add-host` or a flag without its value in the last token is passed on as it is, before the collected variables |
| NerdctlEndings.LastMountIsRefused | cmd/finch/nerdctl_remote.go:117-129 | after supported options, a last `--mount` that is handled is refused |
| NerdctlEndings.DoubleDashScan | cmd/finch/nerdctl_remote.go:505-546 | `--` takes a value, is dropped before anything else, and stays at the end |
| NerdctlEndings.DoubleDashIff | cmd/finch/nerdctl_remote.go:230-247 | `--` before a value and a command keeps the line's meaning if and only if no variable is set and no bind mount cut before it |
| NerdctlEndings.LastTokenPanicsIff | cmd/finch/nerdctl_remote.go:454-503 | after supported options, one last token makes the code panic if and only if it is a group of several short flags or `--add-host...` without `:` |
| NerdctlCommand.TrailingMountIsRefusedIff | cmd/finch/nerdctl_remote.go:117-129 | a trailing command is refused if and only if it ends in `--mount` and mounts are handled |
| NerdctlLimits.SeparateMountIff | cmd/finch/nerdctl_remote.go:505-546 | a separate mount reaches nerdctl with its flag if and only if its printed value looks like one |
| NerdctlLimits.SomeOrderTearsMount | cmd/finch/nerdctl.go:321-379 | it does so for all orders of map visits if and only if no key looks like a flag |
| NerdctlForms.TablesAreValid | cmd/finch/nerdctl.go:196-218 | the flag tables keep value and no-value flags apart and name no special flag |
| NerdctlForms.ConfigIsValid | cmd/finch/nerdctl.go:187-218 | for each of the three commands, every host and every order of map visits, the results about lines apply |
| NerdctlForms.TurnEnv | cmd/finch/nerdctl_remote.go:181-196 | each of the four supported ways to set a variable adds exactly what it says and skips a separate value |
| NerdctlForms.TurnEnvFile | cmd/finch/nerdctl_remote.go:580-626 | an environment file adds the entries of its lines, or the command fails if it cannot be opened or read |
| NerdctlRun.Run | cmd/finch/nerdctl_remote.go:93-289 | the loop over the argument array, overwriting it, yields exactly the rewriting the theorems are about |
| NerdctlRun.ScanLoop | cmd/finch/nerdctl_remote.go:115-266 | the scanning loop with its flags collects what the scan from the first argument gives |
| NerdctlRun.ScanTurn | cmd/finch/nerdctl_remote.go:115-143 | one turn of the loop: handler first, then skipping, passing on, or the switch |
| NerdctlRun.ScanOption | cmd/finch/nerdctl_remote.go:144-265 | the switch on one argument, with what it overwrites in the array |
| NerdctlRun.HandleMultipleShortFlags | cmd/finch/nerdctl_remote.go:454-503 | a group is passed on, or its last flag is moved onto the next argument in place |
| NerdctlRun.HandleBindMounts | cmd/finch/nerdctl.go:321-379 | the mount handler overwrites exactly the argument that holds the value |
| NerdctlRun.RewriteMountValue | cmd/finch/nerdctl.go:333-366 | the new value is the parsed mount without its consistency, printed in the order of the map |
| NerdctlRun.ReadEnvLines | cmd/finch/nerdctl_remote.go:597-620 | the lines of a file give their entries, blank lines and comments none |
| NerdctlRun.IsNumericArg | cmd/finch/nerdctl_remote.go:630-652 | numeric means a digit after an optional minus sign |
| Mounts.RewritingKeepsMount | cmd/finch/nerdctl.go:321-379 | for every order of the map, the rewritten bind mount reads back, by the code and by the first `=` of each entry alike, as the mount that the code understood, less its consistency; other mounts are untouched |
| Mounts.PrintedMountParses | cmd/finch/nerdctl_darwin.go:53-60 | printing a mount and parsing it gives it back, valueless entries unchanged and in order |
| Mounts.SecondRewriteOnlyPermutes | cmd/finch/nerdctl.go:321-379 | rewriting a rewritten mount can only permute its entries |
| Mounts.ValueIsWholeIff | cmd/finch/nerdctl.go:341-353 | the value stored for an entry is all that follows its `=`, trimmed, if and only if that holds no second `=` |
| Mounts.RestOfValueIsLost | cmd/finch/nerdctl.go:341-353 | what follows a second `=` has no effect |
| Mounts.MountIsSaidIff | cmd/finch/nerdctl.go:341-353 | the rewritten mount says what the mount said, read by the first `=` of each entry, if and only if no entry in force of a bind mount, other than its consistency, holds a second `=` |
| NerdctlLimits.SourceIsCut | cmd/finch/nerdctl.go:341-353 | `type=bind,K=X=Y,K2=V` is cut to K=X, for all keys and values, so for `source=/a=b` |
| NerdctlLimits.CutMountIsAnother | cmd/finch/nerdctl.go:341-353 | a line with such a mount is well formed and readable, and does not keep what its options say |
| Mounts.ParseMountValue | cmd/finch/nerdctl.go:341-353 | the loop over the entries computes the parsed mount |
| Mounts.MapToString | cmd/finch/nerdctl_darwin.go:53-60 | the loop over the map prints its entries in the order visited |
| EnvOrder.MergedEnvironment | cmd/finch/nerdctl_remote.go:272-281 | the merged map lists the distinct keys in first-mention order, each with its last value |
| EnvOrder.MergeDenotes | cmd/finch/nerdctl_remote.go:272-281 | the ordered map denotes the environment that the entries denote |
| EnvOrder.MergeSettles | cmd/finch/nerdctl_remote.go:272-286 | merging what was printed gives the same map, position by position |
| EnvOrder.FlagsOverrideFiles | cmd/finch/nerdctl_remote.go:268-281 | flag entries override file entries, and neither removes a key of the other |
| EnvOrder.MergeEnv | cmd/finch/nerdctl_remote.go:272-286 | the three loops compute the printed arguments of the merged map |
| Disk.UserDataDiskManager.EnsureUserDataDisk | pkg/disk/disk_darwin.go:34-89 | the steps on the file system, and their order, whatever fails in between |
| Disk.UserDataDiskManager.EnsureLimaDisk | pkg/disk/disk_darwin.go:34-79 | the same up to the lock |
| Disk.UserDataDiskManager.AttachPersistentDiskToLimaDisk | pkg/disk/disk_darwin.go:167-201 | moves the disk up if there is none, clears the path, links it |
| Disk.UserDataDiskManager.MoveLimaDiskUp | pkg/disk/disk_darwin.go:169-180 | makes the directory and renames Lima's datadisk to the persistent path |
| Disk.UserDataDiskManager.ConvertDiskToRaw | pkg/disk/disk_darwin.go:134-153 | renames the disk to its sibling and converts it back, or fails leaving a partial file |
| Disk.UserDataDiskManager.CreateDisk | pkg/disk/disk_darwin.go:155-165 | after a success the datadisk resolves; one that resolves is refused and nothing changes; the sibling, an existing persistent disk and an existing datadisk file are untouched |
| Disk.UserDataDiskManager.EnsureRawDisk | pkg/disk/disk_darwin.go:38-57 | a disk that is not raw is converted and attached again |
| Disk.UserDataDiskManager.EnsureLinkedDisk | pkg/disk/disk_darwin.go:59-71 | a datadisk that is not the link is replaced by it |
| DiskTheorems.RunKeepsInv | pkg/disk/disk_darwin.go:34-201 | one run with a truthful `Stat` of the persistent disk, failing anywhere else, keeps the data out of reach of removal and overwrites no sibling |
| DiskTheorems.HistoryKeepsInv | pkg/disk/disk_darwin.go:34-201 | so does every history of such runs, under changing configurations |
| DiskTheorems.DataSurvivesIff | pkg/disk/disk_darwin.go:34-201 | from a host without sibling, the data survives every history with a truthful `Stat` if and only if the persistent disk and Lima's are not both qcow2 files |
| DiskTheorems.TwoQcow2DisksLoseData | pkg/disk/disk_darwin.go:134-201 | three runs that lose the data when both are |
| DiskTheorems.SiblingIsNeverOverwritten | pkg/disk/disk_darwin.go:134-153 | unless both disks are qcow2 files, no run with a truthful `Stat` of the persistent disk renames over a sibling, and the data survives |
| DiskTheorems.AttachLosesDataIff | pkg/disk/disk_darwin.go:96-99 | attaching loses the only copy if and only if `Stat` misses the disk and Lima's datadisk is renamed onto it |
| DiskTheorems.OneBadStatLosesTheDisk | pkg/disk/disk_darwin.go:96-99 | one failing `Stat` replaces the disk by a fresh one |
| DiskTheorems.SettledStays | pkg/disk/disk_darwin.go:34-89 | a successful run from a settled state changes nothing |
| DiskTheorems.OneRunSettlesIff | pkg/disk/disk_darwin.go:34-89 | one successful run settles the disk, unless vz needs a conversion and Lima does not list the disk |
| DiskTheorems.TwoRunsSettle | pkg/disk/disk_darwin.go:34-89 | two successful runs under one configuration settle it: linked, unlocked, raw for vz |
| CredDaemonTheorems.RunKeepsInv | pkg/credserver/process_darwin.go:29-143 | every interleaving of command line and daemons keeps the protocol's invariant |
| CredDaemonTheorems.BetweenCommands | pkg/credserver/process_darwin.go:29-143 | between commands at most one daemon can serve or touch a file, the PID file names it, and while it serves the socket is its own |
| CredDaemonTheorems.AtMostOneNamedDaemon | pkg/credserver/process_darwin.go:29-143 | if no daemon fails while serving, at most one is live between commands and the PID file names it |
| CredDaemonTheorems.FailureMayLeaveTwo | cmd/credserver/main.go:75-106 | conversely, from every idle state in which a daemon serves, its failure may lead to two live daemons between commands |
| CredDaemonTheorems.DaemonsRemoveOnlyTheirOwn | cmd/credserver/main.go:75-92 | no step of one daemon removes the PID file or the socket of another that is still at work |
| CredDaemonTheorems.StopIsFinal | pkg/credserver/process_darwin.go:110-143 | after a stop the PID file is gone and whatever lives only has to exit |
| CredDaemonTheorems.SpentTouchesNothing | cmd/credserver/main.go:75-92 | a daemon past its cleanup changes neither file any more |
| CredDaemonTheorems.StopEnds | pkg/credserver/process_darwin.go:110-143 | every step of a stop brings its end nearer, with at most twenty polls |
| CredDaemonTheorems.TwoLiveDaemons | cmd/credserver/main.go:75-106 | a daemon that failed while serving may live beside the next |
| CredHost.CredentialHost.StartDaemon | pkg/credserver/process_darwin.go:37-83 | with daemons running in between, a daemon is started if and only if none is found running and no step fails; the PID file then names the one process that was started |
| CredHost.CredentialHost.FindsDaemonRunning | pkg/credserver/process_darwin.go:101-107 | a daemon is found running if and only if the PID file, when it is read, names a process that is alive when it is probed |
| CredHost.CredentialHost.CleanUpStaleFile | pkg/credserver/process_darwin.go:43-53 | the PID file goes if and only if it names a process that is dead when probed and can be removed; the start goes on either way |
| CredHost.CredentialHost.StopDaemon | pkg/credserver/process_darwin.go:87-143 | with daemons running in between, a stop ends, the PID file is gone, and no process left can touch a file |
| CredHost.CredentialHost.PollUntilGone | pkg/credserver/process_darwin.go:130-142 | at most twenty polls, then SIGKILL |
| VirtualMachine.FinchHost.Run | cmd/finch/virtual_machine_stop.go:52-63 | each command changes the host step by step as the transition function says, and passes through exactly the moments that the results on moments are about |
| VirtualMachine.FinchHost.RunInitAction | cmd/finch/virtual_machine_init.go:76-127 | status, default.yaml, override.yaml, dependencies, disk and limactl, in that order, each stopping the rest |
| VirtualMachine.FinchHost.RunStartAction | cmd/finch/virtual_machine_start.go:69-101 | status, dependencies, override.yaml, disk and limactl, in that order |
| VirtualMachine.FinchHost.StopOrRemove | cmd/finch/virtual_machine_stop.go:80-109 | of the moments it passes through, the last is its result, and at every one before only the daemons have moved while the machine is as it was; at the one before the last the daemons are already as the stop leaves them |
| VirtualMachine.FinchHost.ConfigureDefaultLimaYaml | pkg/config/lima_config_applier.go:137-169 | the file is emptied first, so a failure leaves it empty |
| VirtualMachine.FinchHost.ConfigureOverrideLimaYaml | pkg/config/lima_config_applier.go:173-212 | the same for override.yaml, which on success names the disk if and only if the configured type is not wsl2 |
| VirtualMachineTheorems.DaemonOnlyWhileRunning | cmd/finch/virtual_machine_stop.go:80-109 | over every sequence of commands that know their executable's path, forced and failing ones included, an active daemon between commands means that the machine is running |
| VirtualMachineTheorems.StepKeepsDaemonIff | cmd/finch/virtual_machine_stop.go:80-91 | a command keeps that if and only if it does not take a running machine down without stopping an active daemon |
| VirtualMachineTheorems.BootKeepsDaemon | cmd/finch/virtual_machine.go:56-88 | an init or start keeps it, whether or not the daemon is started |
| VirtualMachineTheorems.TakeDownKeepsDaemonIff | cmd/finch/virtual_machine_stop.go:80-109 | a stop or remove keeps it under that condition |
| VirtualMachineTheorems.MomentsAreGuardedIff | cmd/finch/virtual_machine_stop.go:80-109 | at no moment inside a command (between the steps of daemons and command line, and around `limactl`) is a daemon starting up or serving while the machine is down, if and only if the command does not take the machine down under a serving one without stopping it |
| VirtualMachineTheorems.NoneServesWithoutMachine | cmd/finch/virtual_machine_stop.go:80-109 | so over every sequence of commands that know their executable's path, at every moment inside and between them |
| VirtualMachineTheorems.DaemonStopsBeforeMachine | cmd/finch/virtual_machine_stop.go:65-109 | a stop or remove that knows the path is done with the daemon when the machine goes down: up to the last moment the machine is as it was, and at the one before it no active daemon is left |
| VirtualMachineTheorems.DaemonOutlivesMachine | cmd/finch/virtual_machine_stop.go:84-90 | an init and a stop that break it |
| VirtualMachineTheorems.StoppedDaemons | pkg/credserver/process_darwin.go:110-143 | after a whole stop, whatever the daemons did meanwhile, none is active |
| VirtualMachineTheorems.SettingsAreKept | cmd/finch/virtual_machine_init.go:76-144 | over every sequence of commands with a truthful status, while a machine exists default.yaml has the settings it was created with |
| VirtualMachineTheorems.StepKeepsSettingsIff | pkg/lima/lima.go:43-56 | a command keeps that if and only if it is not an init that is told by silence that there is no machine, and writes other settings |
| VirtualMachineTheorems.OthersOnlyAppend | cmd/finch/virtual_machine_start.go:69-101 | otherwise only a start changes default.yaml, by the network snippet alone, with both prerequisites there |
| VirtualMachineTheorems.RejectedChangesNothing | cmd/finch/virtual_machine_init.go:129-144 | a command that the machine's true state is to reject changes nothing at all, whatever status it is told, unless it gets past its check; it does if and only if it is an init that is told by silence that there is no machine |
| VirtualMachineTheorems.CreatedOnce | cmd/finch/virtual_machine_init.go:129-144 | as long as the machine exists, what it was created with does not change |
| VirtualMachineTheorems.AtMostOneSnippet | pkg/dependency/vmnet/update_network_lima_config_unix.go:63-127 | over every sequence of commands that can read default.yaml, it has the snippet at most once |
| VirtualMachineTheorems.StepKeepsOneSnippetIff | pkg/dependency/vmnet/update_network_lima_config_unix.go:63-89 | a command keeps that unless it is a start that cannot read the file, has both prerequisites and can append |
| VirtualMachineTheorems.SnippetNeedsPrerequisites | pkg/dependency/vmnet/update_network_lima_config_unix.go:109-127 | whatever command appends the snippet, both prerequisites are there |
| VirtualMachineTheorems.UserDataSurvives | cmd/finch/virtual_machine_remove.go:81-107 | from a disk in a state that keeps the data out of reach of removal, the user data survives every sequence of commands, removals included, in which `Stat` tells the truth about the persistent disk |
| VirtualMachineTheorems.DiskIsLeftAloneWhileRunning | cmd/finch/virtual_machine_start.go:103-117 | on a running machine, an init that is told by silence that there is none, and gets past its configuration files, ensures the disk in use; no other command touches its paths; so they are left alone if and only if there is no such init or nothing is left to ensure |
| VirtualMachineTheorems.BootedDisk | cmd/finch/virtual_machine_start.go:81-101 | a machine that boots has its disk linked and there, and named in override.yaml if and only if the configured type is not wsl2; the disk is raw if and only if it was, or the configured type is vz and Lima lists it |
| VirtualMachineTheorems.RosettaBootsOnQcow2 | pkg/config/lima_config_applier_darwin.go:19-31 | with Rosetta and another type configured, a vz machine is created and its disk is left as it is |
| LimaConfig.SettingsAreConsistent | pkg/config/lima_config_applier_darwin.go:17-58 | mount type follows machine type, vz needs support, emulation is by Rosetta or by script; exactly when no machine is to be had, and when its type is not the configured one |
| LimaConfig.ConfigureVirtualizationFramework | pkg/config/lima_config_applier_darwin.go:17-58 | the settings filled in field by field are those |
| Vmnet.InstalledIs | pkg/dependency/vmnet/vmnet_unix.go:42-60 | what the group leaves installed, whatever fails in it |
| Vmnet.AppendedOnlyWithPrerequisites | pkg/dependency/vmnet/update_network_lima_config_unix.go:109-127 | the snippet is appended only with both prerequisites installed |
| Vmnet.OneSnippetIff | pkg/dependency/vmnet/update_network_lima_config_unix.go:63-127 | at most one snippet stays at most one, unless the file has one and cannot be read |
| Vmnet.TwoSnippetsGrow | pkg/dependency/vmnet/update_network_lima_config_unix.go:80-88 | once there are two, every installation adds another |
| Dependencies.InstallOptional | pkg/dependency/dependency.go:43-69 | the loop probes and installs in order, for dependencies that may affect one another; the error is there if and only if an attempt failed |
| Dependencies.InstallOptionalDeps | pkg/dependency/dependency.go:76-90 | every group is installed whatever failed before; the error is there if and only if an attempt failed in some group |
| Dependencies.EachProbedOnce | pkg/dependency/dependency.go:46-52 | each dependency that is there is probed once, in order |
| Dependencies.AttemptedIffMissing | pkg/dependency/dependency.go:50-62 | an install is attempted if and only if the dependency is missing at its turn |
| Dependencies.DescriptionOnceAndFirst | pkg/dependency/dependency.go:54-57 | the description is logged if and only if something needing root is installed, once, and before it |
| Regex.EndsAreMatches | pkg/support/redact.go:31-42 | the backtracking engine finds exactly the prefixes in the expression's language |
| Redact.NoAddressSurvives | pkg/support/redact.go:31-42 | after redaction no part of the text is an IPv4, IPv6 or MAC address |
| Redact.RedactionSettles | pkg/support/redact.go:31-42 | redacting again changes nothing; text is changed if and only if it shows an address |
| Redact.ElideTouchesOnlyMatches | pkg/support/redact.go:31-42 | each pass replaces matches and keeps all other text in order |
| Replacement.NoneSurvives | pkg/command/nerdctl.go:83-88 | leftmost replacement by a text whose ends lie outside the alphabet and which contains no match leaves no match |
| Replacement.OthersStayAbsent | pkg/support/redact.go:31-42 | nor does it bring back a match of another language |
| Stdout.ReplaceBytes | pkg/command/nerdctl.go:83-88 | the loop applies the substitutions one after the other |
| Stdout.NoSourceSurvives | pkg/command/nerdctl.go:83-88 | after substitutions whose targets shield every source, no source is left |
| Stdout.OnlySourcesChange | pkg/command/nerdctl.go:83-88 | only occurrences of the source change, each to the target, and the length changes accordingly |
| Stdout.NerdctlBecomesFinch | cmd/finch/nerdctl_remote.go:367-369 | no "nerdctl" is left, and the text is two characters shorter for each |
| Bashrc.Profile.AddLineToBashrc | pkg/config/nerdctl_config_applier.go:62-71 | the command is appended unless contained; the tracked text equals the file |
| Bashrc.Profile.UpdateEnvironment | pkg/config/nerdctl_config_applier.go:144-160 | the loop adds the commands up to the first write that fails, writing exactly once for each that is missing |
| Bashrc.OnlyAppends | pkg/config/nerdctl_config_applier.go:62-71 | the original profile is a prefix of the result, and every command is contained in it |
| Bashrc.SecondRunWritesNothing | pkg/config/nerdctl_config_applier.go:92-163 | a second run with the same inputs writes nothing |
| Bashrc.FinchDirInEffectIff | pkg/config/nerdctl_config_applier.go:92-163 | Finch's directory is in effect afterwards if and only if its line is new or was in effect before |
| Bashrc.MovingBackHasNoEffect | pkg/config/nerdctl_config_applier.go:62-71 | moving to another directory and back leaves the other one in effect |
| CommandEnv.ReplaceOrAppendInPlace | pkg/command/nerdctl.go:90-99 | the first setting is overwritten where it stands, or a longer copy is made and the original left alone |
| CommandEnv.UpdatesLikeAMap | pkg/command/nerdctl.go:90-99 | with distinct names, the variable gets its value, every other entry keeps value and place; names stay distinct if and only if the variable is not there as a bare name |
| CommandEnv.SeenIff | pkg/command/nerdctl.go:90-99 | the process sees the new value if and only if no later setting says otherwise |
| CommandEnv.LimactlSeesBoth | pkg/command/nerdctl_remote.go:49-66 | limactl gets both variables, and every other one as it was |

## Left out

- Windows and native Linux: WSL paths and disks and the native runner.
- The default branch of `run`, aliases, `inspect`, `build` and `compose version` handling, the passed-on host variables and the assembly of the limactl command around the rewritten arguments.
- Bytes beyond one per character: text is modelled as sequences of one-byte characters, so the trimming of other Unicode white space is not modelled.
- Opening environment files: the cleaned name is looked up among the files the host can open; path cleaning, and lines too long for the scanner, are not modelled beyond a file that breaks off.
- `finch vm settings`, `status` and `disk resize`, and detaching the disk, which does nothing on macOS.
- The contents of override.yaml beyond the disk's name: CPUs, memory, mounts and snapshotters.
- The credential-helper dependency group, and the way the binaries and the sudoers file are installed: an install is an outcome.
- The guest configuration over SSH other than the profile (nerdctl.toml, the home directory of the machine).
- The HTTP side of the credential daemon.
- Concurrent Finch commands, a command killed halfway, reuse of PIDs, and signals from elsewhere; inside one command on the machine, `limactl` is one step.
- Links from Lima's datadisk to anything but the persistent disk, and partial writes of configuration files.
- The other redactors of support bundles: user names, SSH keys, ports and the installation path.
- The lines that Finch adds to `.bashrc` in a wsl2 machine.
- NerdctlEndings.SeparateAddHostIff: covers addresses that do not look like options, and lines in which no mount that Finch handles follows; the handler would rewrite it though it is passed on as part of the command.
- NerdctlEndings.DoubleDashIff: covers a value and a command behind `--`; options that follow the value go on being scanned, as DoubleDashScan states, though nerdctl does not take them for options.
- NerdctlMeaning.TrailingCommandUnchanged: covers commands on which the mount handler does not run; CommandUnchangedIff has the others.
- NerdctlLimits.ImageNamedRun: covers well-formed remainders; of others the scan is given form by form.
- NerdctlEndings.LastTokenPanicsIff: covers supported options before the last token; what a wrong form does there is stated form by form.
