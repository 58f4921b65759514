/** mount-manager/device-utils.go: checking that a device path leads to the disk it is named after, and repairing it. */
module DeviceVerify {
  import opened Wrappers
  import opened DeviceSerial

  /** What the serial tools print for each device; a device that is not in the map makes its tool fail. */
  datatype Tools = Tools(scsi: map<string, string>, nvme: map<string, string>)

  datatype Presence = Exists | Missing | StatFailed

  /** Everything one poll observes of the machine. */
  datatype Poll = Poll(
    presence: Presence,          // of the device path
    link: Option<string>,        // what the device path resolves to, None an error
    sd: Option<seq<string>>,     // the drives /dev/sd*, None an error
    nvme: Option<seq<string>>,   // the drives /dev/nvme*
    tools: Tools,
    refusing: set<string>)       // the drives udevadm fails to trigger

  datatype Failure = ToolsMissing | PollFailed | TimedOut

  const SD_PATH := "/dev/sd"
  const NVME_PATH := "/dev/nvme"

  /** The serial of a drive: empty for a path of another kind, None when it cannot be read. */
  ghost function DevFsSerial(tools: Tools, path: string): Option<string> {
    if SD_PATH <= path then
      if path in tools.scsi then ScsiSerial(tools.scsi[path]) else None
    else if NVME_PATH <= path then
      if path in tools.nvme then NvmeSerial(tools.nvme[path]) else None
    else Some("")
  }

  method GetDevFsSerial(tools: Tools, path: string) returns (serial: Option<string>)
    ensures serial == DevFsSerial(tools, path)
  {
    if SD_PATH <= path {
      if path !in tools.scsi {
        return None;
      }
      serial := ParseScsiSerial(tools.scsi[path]);
    } else if NVME_PATH <= path {
      if path !in tools.nvme {
        return None;
      }
      serial := ParseNvmeSerial(tools.nvme[path]);
    } else {
      serial := Some("");
    }
  }

  /** The path is a drive whose serial is readable and is the disk's name. */
  ghost predicate IsDisk(tools: Tools, path: string, name: string) {
    name != "" && DevFsSerial(tools, path) == Some(name)
  }

  /** The drives of a poll in the order they are tried; none when a listing fails. */
  function Drives(p: Poll): seq<string> {
    if p.sd.Some? && p.nvme.Some? then p.sd.value + p.nvme.value else []
  }

  ghost predicate FirstDisk(p: Poll, name: string, i: nat) {
    && i < |Drives(p)| && IsDisk(p.tools, Drives(p)[i], name)
    && forall j | 0 <= j < i :: !IsDisk(p.tools, Drives(p)[j], name)
  }

  /** The drive a repair triggers. */
  ghost function Disk(p: Poll, name: string): Option<string> {
    if exists i: nat :: FirstDisk(p, name, i) then
      var i: nat :| FirstDisk(p, name, i); Some(Drives(p)[i])
    else None
  }

  lemma FirstDiskOnce(p: Poll, name: string, i: nat, k: nat)
    requires FirstDisk(p, name, i) && FirstDisk(p, name, k)
    ensures i == k
  {
    var drives := Drives(p);
    assert forall j | 0 <= j < i :: !IsDisk(p.tools, drives[j], name);
    assert forall j | 0 <= j < k :: !IsDisk(p.tools, drives[j], name);
  }

  lemma DiskIs(p: Poll, name: string, i: nat)
    requires FirstDisk(p, name, i)
    ensures Disk(p, name) == Some(Drives(p)[i])
  {
    var k: nat :| FirstDisk(p, name, k) && Disk(p, name) == Some(Drives(p)[k]);
    FirstDiskOnce(p, name, i, k);
  }

  /** The path leads to the disk: the poll ends in success. */
  ghost predicate Sees(p: Poll, path: string, name: string) {
    path != "" && p.presence.Exists? && p.link.Some? && IsDisk(p.tools, p.link.value, name)
  }

  /** The path is there and leads, readably, to something else: the poll attempts a repair. */
  ghost predicate Mismatches(p: Poll, path: string, name: string) {
    && p.presence.Exists?
    && (path == "" || (p.link.Some? && DevFsSerial(p.tools, p.link.value).Some? &&
         !IsDisk(p.tools, p.link.value, name)))
  }

  /** The repair of this poll found the disk, and the trigger went through. */
  ghost predicate Repaired(p: Poll, name: string) {
    Disk(p, name).Some? && Disk(p, name).value !in p.refusing
  }

  ghost predicate Retries(p: Poll, path: string, name: string) {
    p.presence.Missing? || (Mismatches(p, path, name) && Repaired(p, name))
  }

  /** The drives one poll triggers, at most one. */
  ghost function Tried(p: Poll, path: string, name: string): seq<string>
  {
    if Mismatches(p, path, name) && Disk(p, name).Some? then [Disk(p, name).value] else []
  }

  ghost function Attempts(path: string, name: string): Poll -> seq<string> {
    (p: Poll) => Tried(p, path, name)
  }

  /** All drives triggered so far, the first `made` polls having added their attempts to `log` in order. */
  ghost function AfterPolls(log: seq<string>, polls: seq<Poll>, attempts: Poll -> seq<string>, made: nat): seq<string>
    requires made <= |polls|
  {
    if made == 0 then log else AfterPolls(log, polls, attempts, made - 1) + attempts(polls[made - 1])
  }

  /** The first poll that does not ask for another. */
  ghost predicate Decides(polls: seq<Poll>, path: string, name: string, k: nat) {
    && k < |polls| && !Retries(polls[k], path, name)
    && forall j | 0 <= j < k :: Retries(polls[j], path, name)
  }

  /** The first poll that does not ask for another sees the disk. */
  ghost predicate Succeeds(polls: seq<Poll>, path: string, name: string) {
    exists k: nat :: Decides(polls, path, name, k) && Sees(polls[k], path, name)
  }

  ghost predicate AlwaysRetries(polls: seq<Poll>, path: string, name: string) {
    forall j | 0 <= j < |polls| :: Retries(polls[j], path, name)
  }

  /** How many of the polls are made. */
  ghost function Made(polls: seq<Poll>, path: string, name: string): (made: nat)
    ensures made <= |polls|
  {
    if exists k: nat :: Decides(polls, path, name, k) then
      var k: nat :| Decides(polls, path, name, k); k + 1
    else |polls|
  }

  /** The run ends at `k`, whichever way one looks for the deciding poll. */
  lemma DecidedAt(polls: seq<Poll>, path: string, name: string, k: nat)
    requires Decides(polls, path, name, k)
    ensures Succeeds(polls, path, name) <==> Sees(polls[k], path, name)
    ensures Made(polls, path, name) == k + 1
    ensures !AlwaysRetries(polls, path, name)
  {
  }

  lemma NeverDecided(polls: seq<Poll>, path: string, name: string)
    requires AlwaysRetries(polls, path, name)
    ensures !Succeeds(polls, path, name)
    ensures Made(polls, path, name) == |polls|
  {
  }

  /** What the polling reports decides the call. */
  lemma Concludes(polls: seq<Poll>, path: string, name: string, made: nat, ended: bool, done: bool)
    requires made <= |polls|
    requires ended ==> made > 0 && Decides(polls, path, name, made - 1) && done == Sees(polls[made - 1], path, name)
    requires !ended ==> made == |polls| && AlwaysRetries(polls, path, name)
    ensures Succeeds(polls, path, name) <==> ended && done
    ensures AlwaysRetries(polls, path, name) <==> !ended
    ensures Made(polls, path, name) == made
  {
    if ended {
      DecidedAt(polls, path, name, made - 1);
    } else {
      NeverDecided(polls, path, name);
    }
  }

  /** The udev daemon as this package drives it. */
  class Udev {
    var triggered: seq<string>

    constructor ()
      ensures triggered == []
    {
      triggered := [];
    }

    method ChangeToDrive(drive: string, refusing: set<string>) returns (ok: bool)
      modifies this
      ensures triggered == old(triggered) + [drive] && ok == (drive !in refusing)
    {
      triggered := triggered + [drive];
      ok := drive !in refusing;
    }

    /** `udevadmTriggerForDiskIfExists`. */
    method TriggerForDiskIfExists(p: Poll, name: string) returns (ok: bool)
      modifies this
      ensures ok == Repaired(p, name)
      ensures triggered == old(triggered) + if Disk(p, name).Some? then [Disk(p, name).value] else []
    {
      if p.sd.None? || p.nvme.None? {
        return false;
      }
      var drives := p.sd.value + p.nvme.value;
      for i := 0 to |drives|
        invariant triggered == old(triggered)
        invariant forall j | 0 <= j < i :: !IsDisk(p.tools, drives[j], name)
      {
        var serial := GetDevFsSerial(p.tools, drives[i]);
        if serial.None? || serial.value == "" {
          continue;
        }
        if serial.value == name {
          DiskIs(p, name, i);
          ok := ChangeToDrive(drives[i], p.refusing);
          return;
        }
      }
      return false;
    }

    /** `VerifyDevicePath`, `polls` being what the polls made before the time is up observe; None is success. */
    method VerifyDevicePath(path: string, name: string, toolsExist: bool, polls: seq<Poll>)
      returns (ok: bool, err: Option<Failure>)
      modifies this
      ensures ok == err.None?
      ensures ok <==> toolsExist && Succeeds(polls, path, name)
      ensures err == Some(ToolsMissing) <==> !toolsExist
      ensures err == Some(TimedOut) <==> toolsExist && AlwaysRetries(polls, path, name)
      ensures triggered ==
                if toolsExist then AfterPolls(old(triggered), polls, Attempts(path, name), Made(polls, path, name))
                else old(triggered)
    {
      if !toolsExist {
        return false, Some(ToolsMissing);
      }
      var made, ended, done := PollUntilDone(path, name, polls, Attempts(path, name));
      Concludes(polls, path, name, made, ended, done);
      if ended {
        return done, if done then None else Some(PollFailed);
      }
      return false, Some(TimedOut);
    }

    /** The polling itself: either the last of the polls made ended it, or the time ran out. */
    method PollUntilDone(path: string, name: string, polls: seq<Poll>, ghost attempts: Poll -> seq<string>)
      returns (made: nat, ended: bool, done: bool)
      requires forall p {:trigger Tried(p, path, name)} :: attempts(p) == Tried(p, path, name)
      modifies this
      ensures made <= |polls| && triggered == AfterPolls(old(triggered), polls, attempts, made)
      ensures ended ==> made > 0 && Decides(polls, path, name, made - 1) && done == Sees(polls[made - 1], path, name)
      ensures !ended ==> made == |polls| && AlwaysRetries(polls, path, name)
    {
      made := 0;
      while made < |polls|
        invariant made <= |polls|
        invariant forall j | 0 <= j < made :: Retries(polls[j], path, name)
        invariant triggered == AfterPolls(old(triggered), polls, attempts, made)
      {
        var failed;
        done, failed := Check(path, name, polls[made]);
        made := made + 1;
        if done || failed {
          return made, true, done;
        }
      }
      return made, false, false;
    }

    /** The body of the poll: finished, failed, or neither to be called again. */
    method Check(path: string, name: string, p: Poll) returns (done: bool, failed: bool)
      modifies this
      ensures done == Sees(p, path, name)
      ensures failed == (!Sees(p, path, name) && !Retries(p, path, name))
      ensures triggered == old(triggered) + Tried(p, path, name)
    {
      if p.presence.StatFailed? {
        return false, true;
      }
      if p.presence.Missing? {
        return false, false;
      }
      if |path| == 0 {
        var repaired := TriggerForDiskIfExists(p, name);
        return false, !repaired;
      }
      if p.link.None? {
        return false, true;
      }
      var serial := GetDevFsSerial(p.tools, p.link.value);
      if serial.None? {
        return false, true;
      }
      if serial.value != "" && serial.value == name {
        return true, false;
      }
      var repaired := TriggerForDiskIfExists(p, name);
      return false, !repaired;
    }
  }

  lemma TriedIsDisk(p: Poll, path: string, name: string)
    ensures |Tried(p, path, name)| <= 1
    ensures forall d | d in Tried(p, path, name) ::
            Disk(p, name) == Some(d) && IsDisk(p.tools, d, name) && d in Drives(p)
  {
  }

  lemma {:induction false} AttemptsAdd(log: seq<string>, polls: seq<Poll>, attempts: Poll -> seq<string>, made: nat)
    requires made <= |polls| && forall p | p in polls :: |attempts(p)| <= 1
    ensures log <= AfterPolls(log, polls, attempts, made)
    ensures |AfterPolls(log, polls, attempts, made)| <= |log| + made
    ensures forall d | d in AfterPolls(log, polls, attempts, made)[|log|..] :: exists p ::
            p in polls && d in attempts(p)
  {
    if made > 0 {
      AttemptsAdd(log, polls, attempts, made - 1);
      var before, last := AfterPolls(log, polls, attempts, made - 1), polls[made - 1];
      assert last in polls && (before + attempts(last))[|log|..] == before[|log|..] + attempts(last);
    }
  }

  /** Over any run of polls, only drives with the disk's own serial are triggered, and never more than one a poll. */
  lemma OnlyTheDiskIsTriggered(log: seq<string>, polls: seq<Poll>, path: string, name: string, made: nat)
    requires made <= |polls|
    ensures var after := AfterPolls(log, polls, Attempts(path, name), made);
            && log <= after && |after| <= |log| + made
            && forall d | d in after[|log|..] :: exists p ::
                 p in polls && Disk(p, name) == Some(d) && IsDisk(p.tools, d, name)
  {
    var attempts := Attempts(path, name);
    forall p | p in polls {
      TriedIsDisk(p, path, name);
    }
    AttemptsAdd(log, polls, attempts, made);
    forall d | d in AfterPolls(log, polls, attempts, made)[|log|..]
      ensures exists p :: p in polls && Disk(p, name) == Some(d) && IsDisk(p.tools, d, name)
    {
      var p :| p in polls && d in attempts(p);
      TriedIsDisk(p, path, name);
    }
  }

  /**
   * The branch for a device without a path cannot be taken: the empty path never exists, so nothing is ever repaired.
   */
  lemma {:induction false} EmptyPathNeverRepairs(log: seq<string>, polls: seq<Poll>, name: string, made: nat)
    requires made <= |polls| && forall p | p in polls :: !p.presence.Exists?
    ensures AfterPolls(log, polls, Attempts("", name), made) == log && !Succeeds(polls, "", name)
  {
    if made > 0 {
      EmptyPathNeverRepairs(log, polls, name, made - 1);
      assert polls[made - 1] in polls;
    }
  }

  // What a poll comes to, said of the texts the tools print

  /** The drive's own tool prints `name`: the SCSI tool for /dev/sd, the NVMe tool for /dev/nvme. */
  ghost predicate Carries(tools: Tools, path: string, name: string) {
    if "/dev/sd" <= path then path in tools.scsi && PrintsScsi(tools.scsi[path], name)
    else "/dev/nvme" <= path && path in tools.nvme && PrintsNvme(tools.nvme[path], name)
  }

  /** The serial can be told: its tool prints one, or the path is of another kind and has none. */
  ghost predicate Readable(tools: Tools, path: string) {
    (exists name :: Carries(tools, path, name)) || !("/dev/sd" <= path || "/dev/nvme" <= path)
  }

  lemma CarriesIs(tools: Tools, path: string, name: string)
    ensures IsDisk(tools, path, name) <==> Carries(tools, path, name)
  {
    if "/dev/sd" <= path {
      if path in tools.scsi {
        ScsiReads(tools.scsi[path], name);
      }
    } else if "/dev/nvme" <= path && path in tools.nvme {
      NvmeReads(tools.nvme[path], name);
    }
  }

  lemma ReadableIs(tools: Tools, path: string)
    ensures DevFsSerial(tools, path).Some? <==> Readable(tools, path)
  {
    var serial := DevFsSerial(tools, path);
    if serial.Some? && ("/dev/sd" <= path || "/dev/nvme" <= path) {
      if "/dev/sd" <= path {
        ScsiReads(tools.scsi[path], serial.value);
      } else {
        NvmeReads(tools.nvme[path], serial.value);
      }
      assert Carries(tools, path, serial.value);
    }
    forall name | Carries(tools, path, name) ensures serial.Some? {
      CarriesIs(tools, path, name);
    }
  }

  /** The first drive that carries the name, sd before nvme. */
  ghost predicate FirstCarrier(p: Poll, name: string, d: string) {
    && p.sd.Some? && p.nvme.Some?
    && exists i ::
         && 0 <= i < |p.sd.value + p.nvme.value| && (p.sd.value + p.nvme.value)[i] == d && Carries(p.tools, d, name)
         && forall j | 0 <= j < i :: !Carries(p.tools, (p.sd.value + p.nvme.value)[j], name)
  }

  lemma CarrierIs(p: Poll, name: string, d: string)
    ensures Disk(p, name) == Some(d) <==> FirstCarrier(p, name, d)
  {
    var drives := Drives(p);
    forall i | 0 <= i < |drives| ensures IsDisk(p.tools, drives[i], name) <==> Carries(p.tools, drives[i], name) {
      CarriesIs(p.tools, drives[i], name);
    }
    if Disk(p, name) == Some(d) {
      var i: nat :| FirstDisk(p, name, i) && drives[i] == d;
      assert FirstCarrier(p, name, d);
    }
    if FirstCarrier(p, name, d) {
      var i: nat :| i < |drives| && drives[i] == d && Carries(p.tools, d, name)
        && forall j | 0 <= j < i :: !Carries(p.tools, drives[j], name);
      DiskIs(p, name, i);
    }
  }

  /** The path is there and leads, readably, to another drive. */
  ghost predicate LeadsElsewhere(p: Poll, path: string, name: string) {
    && p.presence == Exists
    && (path == "" || exists d :: p.link == Some(d) && Readable(p.tools, d) && !Carries(p.tools, d, name))
  }

  lemma ElsewhereIs(p: Poll, path: string, name: string)
    ensures Mismatches(p, path, name) <==> LeadsElsewhere(p, path, name)
  {
    if p.link.Some? {
      CarriesIs(p.tools, p.link.value, name);
      ReadableIs(p.tools, p.link.value);
    }
  }

  /**
   * One poll: it succeeds exactly when the path is there and leads to a drive whose tool prints the name; it asks for
   * another exactly when the path is missing, or leads elsewhere and the first drive that carries the name takes the
   * trigger; and what it triggers is that drive, if the path leads elsewhere.
   */
  lemma OnePoll(p: Poll, path: string, name: string)
    ensures Sees(p, path, name) <==>
              path != "" && p.presence == Exists && exists d :: p.link == Some(d) && Carries(p.tools, d, name)
    ensures Retries(p, path, name) <==>
              || p.presence == Missing
              || (LeadsElsewhere(p, path, name) && exists d :: FirstCarrier(p, name, d) && d !in p.refusing)
    ensures forall d :: Tried(p, path, name) == [d] <==> LeadsElsewhere(p, path, name) && FirstCarrier(p, name, d)
    ensures Tried(p, path, name) == [] <==>
              !LeadsElsewhere(p, path, name) || forall d :: !FirstCarrier(p, name, d)
  {
    ElsewhereIs(p, path, name);
    if p.link.Some? {
      CarriesIs(p.tools, p.link.value, name);
    }
    forall d ensures Disk(p, name) == Some(d) <==> FirstCarrier(p, name, d) {
      CarrierIs(p, name, d);
    }
  }

  /** A disk that is linked rightly is found at once, and nothing is triggered. */
  lemma RightLinkSucceeds(polls: seq<Poll>, path: string, name: string, d: string, log: seq<string>)
    requires polls != [] && path != "" && polls[0].presence == Exists && polls[0].link == Some(d)
    requires || ("/dev/sd" <= d && d in polls[0].tools.scsi && PrintsScsi(polls[0].tools.scsi[d], name))
             || ("/dev/nvme" <= d && d in polls[0].tools.nvme && PrintsNvme(polls[0].tools.nvme[d], name))
    ensures Succeeds(polls, path, name) && Made(polls, path, name) == 1
    ensures AfterPolls(log, polls, Attempts(path, name), 1) == log
  {
    var p := polls[0];
    assert "/dev/nvme" <= d ==> !("/dev/sd" <= d) by {
      assert "/dev/nvme"[5] == 'n' && "/dev/sd"[5] == 's';
    }
    assert Carries(p.tools, d, name);
    CarriesIs(p.tools, d, name);
    assert Sees(p, path, name) && !Mismatches(p, path, name);
    DecidedAt(polls, path, name, 0);
    assert AfterPolls(log, polls, Attempts(path, name), 0) == log;
  }

  /** A poll that finds the path linked to anything that is not such a drive never succeeds. */
  lemma OtherLinkFails(p: Poll, path: string, name: string, d: string)
    requires p.link == Some(d) && !("/dev/sd" <= d) && !("/dev/nvme" <= d)
    ensures !Sees(p, path, name)
  {
    OnePoll(p, path, name);
  }
}
