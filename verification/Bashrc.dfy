/** The lines Finch adds to the shell profile inside the machine, and what they bring about. */
module Bashrc {
  import opened Wrappers
  import opened Strings

  /** The paths the lines depend on. */
  datatype Paths = Paths(finchDir: string, homeDir: string, vmHome: string)

  function TrimSlashes(s: string): (t: string)
    ensures t <= s && (t == "" || t[|t| - 1] != '/')
  {
    if s != "" && s[|s| - 1] == '/' then TrimSlashes(s[..|s| - 1]) else s
  }

  function FinchDirCommand(e: Paths): string { "FINCH_DIR=" + e.finchDir }

  function AwsDirCommand(e: Paths): string { "AWS_DIR=" + e.homeDir + "/.aws" }

  const VM_CONFIG_DIR := "\"$HOME/.finch-vm-config\""

  const CREDS_STORE := "echo " + "'{\"credsStore\": " + "\"finchhost\"}' > " + "\"$DOCKER_CONFIG/" + "config.json\""

  const AWS_LINK := "[ -L /root/.aws ] || " + "sudo ln -fs \"$AWS_DIR\"" + " /root/.aws"

  function FinchLinkCommand(e: Paths): string {
    var dir := TrimSlashes(e.vmHome) + "/.finch";
    "[ -L " + dir + " ] || ln -s $FINCH_DIR " + dir
  }

  /** The commands after the first. */
  function LaterCommands(e: Paths): seq<string> {
    [AwsDirCommand(e), "mkdir -p " + VM_CONFIG_DIR, "export DOCKER_CONFIG=" + VM_CONFIG_DIR, CREDS_STORE, AWS_LINK,
     FinchLinkCommand(e)]
  }

  function Commands(e: Paths): seq<string> { [FinchDirCommand(e)] + LaterCommands(e) }

  /** The profile with a command at its end, unless its text is somewhere in it. */
  function AddLine(profile: string, cmd: string): string {
    if Occurs(cmd, profile) then profile else profile + "\n" + cmd
  }

  function AddLines(profile: string, cmds: seq<string>): string
    decreases |cmds|
  {
    if cmds == [] then profile else AddLine(AddLines(profile, cmds[..|cmds| - 1]), cmds[|cmds| - 1])
  }

  /** How many of the commands have to be written. */
  function Writes(profile: string, cmds: seq<string>): nat
    decreases |cmds|
  {
    if cmds == [] then 0
    else
      var init := cmds[..|cmds| - 1];
      Writes(profile, init) + if Occurs(cmds[|cmds| - 1], AddLines(profile, init)) then 0 else 1
  }

  /** The profile in the machine's file system; `writes` counts how often it is written. */
  class Profile {
    var file: string
    var writes: nat

    constructor (file: string)
      ensures this.file == file && writes == 0
    {
      this.file, this.writes := file, 0;
    }

    /** `profile` is what the caller takes the file to hold; a write that fails leaves the file as it is. */
    method AddLineToBashrc(profile: string, cmd: string, fails: bool) returns (ok: bool, next: string)
      requires profile == file
      modifies this
      ensures ok <==> !fails || Occurs(cmd, old(file))
      ensures ok ==> next == file && file == AddLine(old(file), cmd)
      ensures !ok ==> file == old(file)
      ensures writes == old(writes) + if ok && !Occurs(cmd, old(file)) then 1 else 0
    {
      if !Occurs(cmd, profile) {
        var profileWithCommand := profile + "\n" + cmd;
        if fails {
          return false, "";
        }
        file, writes := profileWithCommand, writes + 1;
        return true, profileWithCommand;
      }
      return true, profile;
    }

    /** Adds the commands in order up to the first write that fails; `done` of them are dealt with. */
    method UpdateEnvironment(cmds: seq<string>, readFails: bool, writeFails: nat -> bool) returns (ok: bool, done: nat)
      modifies this
      ensures done <= |cmds| && file == AddLines(old(file), cmds[..done])
      ensures writes == old(writes) + Writes(old(file), cmds[..done])
      ensures ok ==> done == |cmds|
      ensures !ok ==> if readFails then done == 0 else done < |cmds| && writeFails(done) && !Occurs(cmds[done], file)
      ensures readFails ==> !ok
    {
      done := 0;
      if readFails {
        return false, 0;
      }
      var profile := file;
      while done < |cmds|
        invariant done <= |cmds| && profile == file == AddLines(old(file), cmds[..done])
        invariant writes == old(writes) + Writes(old(file), cmds[..done])
      {
        assert cmds[..done + 1][..done] == cmds[..done];
        ok, profile := AddLineToBashrc(profile, cmds[done], writeFails(done));
        if !ok {
          return;
        }
        done := done + 1;
      }
      return true, done;
    }
  }

  // ---- only appends, and settles ----

  lemma OccursInLonger(sub: string, s: string, t: string)
    requires Occurs(sub, s)
    ensures Occurs(sub, s + t)
  {
    var i, j :| 0 <= i <= j <= |s| && s[i..j] == sub;
    assert (s + t)[i..j] == sub;
  }

  lemma LineOccurs(profile: string, cmd: string)
    ensures Occurs(cmd, AddLine(profile, cmd))
  {
    var p := AddLine(profile, cmd);
    if !Occurs(cmd, profile) {
      assert p[|profile| + 1..|p|] == cmd;
    }
  }

  /** The original profile is the beginning of the result, and every command is contained in it. */
  lemma {:induction false} OnlyAppends(profile: string, cmds: seq<string>)
    ensures profile <= AddLines(profile, cmds)
    ensures forall c :: c in cmds ==> Occurs(c, AddLines(profile, cmds))
    decreases |cmds|
  {
    if cmds != [] {
      var init, last := cmds[..|cmds| - 1], cmds[|cmds| - 1];
      var before := AddLines(profile, init);
      OnlyAppends(profile, init);
      LineOccurs(before, last);
      forall c | c in init
        ensures Occurs(c, AddLine(before, last))
      {
        OccursInLonger(c, before, "\n" + last);
        assert before + "\n" + last == before + ("\n" + last);
      }
      InitAndLast(cmds);
    }
  }

  lemma {:induction false} NothingToAdd(profile: string, cmds: seq<string>)
    requires forall c :: c in cmds ==> Occurs(c, profile)
    ensures AddLines(profile, cmds) == profile && Writes(profile, cmds) == 0
    decreases |cmds|
  {
    if cmds != [] {
      NothingToAdd(profile, cmds[..|cmds| - 1]);
    }
  }

  /** A second run with the same inputs writes nothing. */
  lemma SecondRunWritesNothing(profile: string, cmds: seq<string>)
    ensures AddLines(AddLines(profile, cmds), cmds) == AddLines(profile, cmds)
    ensures Writes(AddLines(profile, cmds), cmds) == 0
  {
    OnlyAppends(profile, cmds);
    NothingToAdd(AddLines(profile, cmds), cmds);
  }

  // ---- which setting is in effect ----

  /** The last line that assigns to the variable. */
  function LastAssignment(lines: seq<string>, key: string): Option<string> {
    if lines == [] then None
    else if key <= lines[|lines| - 1] then Some(lines[|lines| - 1])
    else LastAssignment(lines[..|lines| - 1], key)
  }

  function InEffect(profile: string, key: string): Option<string> { LastAssignment(Split(profile, '\n'), key) }

  lemma {:induction false} JoinSplit(s: string, c: char)
    ensures Join(Split(s, c), c) == s
    decreases |s|
  {
    if c in s {
      CutRejoins(s, c);
      JoinSplit(After(s, c), c);
      var parts := Split(s, c);
      assert parts[1..] == Split(After(s, c), c);
    }
  }

  lemma AppendedLine(profile: string, cmd: string)
    requires '\n' !in cmd
    ensures Split(profile + "\n" + cmd, '\n') == Split(profile, '\n') + [cmd]
  {
    var lines := Split(profile, '\n');
    JoinSplit(profile, '\n');
    JoinAppended(lines, [cmd], '\n');
    SplitJoined(lines + [cmd], '\n');
  }

  lemma LineInEffect(profile: string, cmd: string, key: string)
    requires '\n' !in cmd
    ensures InEffect(AddLine(profile, cmd), key)
            == if !Occurs(cmd, profile) && key <= cmd then Some(cmd) else InEffect(profile, key)
  {
    if !Occurs(cmd, profile) {
      AppendedLine(profile, cmd);
      var lines := Split(profile, '\n') + [cmd];
      assert lines[..|lines| - 1] == Split(profile, '\n');
    }
  }

  /** Commands that are lines of their own and do not assign to the variable. */
  predicate LeavesAlone(cmds: seq<string>, key: string) {
    forall i :: 0 <= i < |cmds| ==> '\n' !in cmds[i] && !(key <= cmds[i])
  }

  lemma {:induction false} OthersDoNotMatter(profile: string, cmds: seq<string>, key: string)
    requires LeavesAlone(cmds, key)
    ensures InEffect(AddLines(profile, cmds), key) == InEffect(profile, key)
    decreases |cmds|
  {
    if cmds != [] {
      OthersDoNotMatter(profile, cmds[..|cmds| - 1], key);
      LineInEffect(AddLines(profile, cmds[..|cmds| - 1]), cmds[|cmds| - 1], key);
    }
  }

  lemma {:induction false} AddLinesAppended(profile: string, a: seq<string>, b: seq<string>)
    ensures AddLines(profile, a + b) == AddLines(AddLines(profile, a), b)
    decreases |b|
  {
    if b == [] {
      assert a + b == a;
    } else {
      AddLinesAppended(profile, a, b[..|b| - 1]);
      assert (a + b)[..|a + b| - 1] == a + b[..|b| - 1];
    }
  }

  /** What is in effect after the commands, the first of which assigns to the variable. */
  lemma InEffectAfter(profile: string, cmd: string, rest: seq<string>, key: string)
    requires key <= cmd && '\n' !in cmd && LeavesAlone(rest, key)
    ensures InEffect(AddLines(profile, [cmd] + rest), key)
            == if Occurs(cmd, profile) then InEffect(profile, key) else Some(cmd)
  {
    AddLinesAppended(profile, [cmd], rest);
    assert [cmd][..0] == [];
    assert AddLines(profile, [cmd]) == AddLine(profile, cmd);
    OthersDoNotMatter(AddLine(profile, cmd), rest, key);
    LineInEffect(profile, cmd, key);
  }

  predicate OneLine(e: Paths) { '\n' !in e.finchDir && '\n' !in e.homeDir && '\n' !in e.vmHome }

  const KEY := "FINCH_DIR="

  /** A line of its own that is not about Finch's directory. */
  predicate Unrelated(s: string) { '\n' !in s && s != "" && s[0] != 'F' }

  lemma FixedCommandsAreUnrelated()
    ensures Unrelated(AWS_LINK) && Unrelated(CREDS_STORE)
  {
  }

  lemma VmConfigDirIsOneLine()
    ensures '\n' !in VM_CONFIG_DIR
  {
  }

  lemma ConfigDirCommandsAreUnrelated(dir: string)
    requires '\n' !in dir
    ensures Unrelated("mkdir -p " + dir) && Unrelated("export DOCKER_CONFIG=" + dir)
  {
  }

  lemma PathCommandsAreUnrelated(e: Paths)
    requires OneLine(e)
    ensures Unrelated(AwsDirCommand(e)) && Unrelated(FinchLinkCommand(e))
  {
    var dir := TrimSlashes(e.vmHome) + "/.finch";
    assert '\n' !in dir;
    assert AwsDirCommand(e)[0] == 'A' && FinchLinkCommand(e)[0] == '[';
  }

  lemma UnrelatedLeavesAlone(cmds: seq<string>)
    requires forall i :: 0 <= i < |cmds| ==> Unrelated(cmds[i])
    ensures LeavesAlone(cmds, KEY)
  {
    assert KEY[0] == 'F';
  }

  lemma LaterCommandsLeaveFinchDir(e: Paths)
    requires OneLine(e)
    ensures LeavesAlone(LaterCommands(e), KEY)
  {
    FixedCommandsAreUnrelated();
    VmConfigDirIsOneLine();
    ConfigDirCommandsAreUnrelated(VM_CONFIG_DIR);
    PathCommandsAreUnrelated(e);
    UnrelatedLeavesAlone(LaterCommands(e));
  }

  /** The directory the machine is told is in effect after an update if and only if its line is new, or its text was
      in the profile and it was in effect before. */
  lemma FinchDirInEffectIff(profile: string, e: Paths)
    requires OneLine(e)
    ensures InEffect(AddLines(profile, Commands(e)), KEY) == Some(FinchDirCommand(e))
            <==> !Occurs(FinchDirCommand(e), profile) || InEffect(profile, KEY) == Some(FinchDirCommand(e))
  {
    LaterCommandsLeaveFinchDir(e);
    InEffectAfter(profile, FinchDirCommand(e), LaterCommands(e), KEY);
  }

  /** Moving to another directory and back: the line of the first is still there, so the second stays in effect. */
  lemma MovingBackHasNoEffect(profile: string, e: Paths, other: Paths)
    requires OneLine(e) && OneLine(other)
    requires !Occurs(FinchDirCommand(other), AddLines(profile, Commands(e)))
    ensures var there := AddLines(AddLines(profile, Commands(e)), Commands(other));
            InEffect(AddLines(there, Commands(e)), KEY) == Some(FinchDirCommand(other))
    ensures e.finchDir != other.finchDir
  {
    var home := AddLines(profile, Commands(e));
    var there := AddLines(home, Commands(other));
    FirstCommandStays(profile, e, Commands(other));
    LaterCommandsLeaveFinchDir(e);
    LaterCommandsLeaveFinchDir(other);
    InEffectAfter(home, FinchDirCommand(other), LaterCommands(other), KEY);
    InEffectAfter(there, FinchDirCommand(e), LaterCommands(e), KEY);
  }

  lemma FirstCommandStays(profile: string, e: Paths, more: seq<string>)
    ensures Occurs(FinchDirCommand(e), AddLines(profile, Commands(e)))
    ensures Occurs(FinchDirCommand(e), AddLines(AddLines(profile, Commands(e)), more))
  {
    var home := AddLines(profile, Commands(e));
    var there := AddLines(home, more);
    OnlyAppends(profile, Commands(e));
    OnlyAppends(home, more);
    assert Commands(e)[0] == FinchDirCommand(e);
    OccursInLonger(FinchDirCommand(e), home, there[|home|..]);
    assert home + there[|home|..] == there;
  }
}
