/**
 The storage behind volumes, and the three states that act on it: present,
 prepared and removed. Every call is kept in a log, so that what is proved about
 logs is true of any sequence of calls over any set of volumes.
 */
module Volumes {
  import opened Results

  // ----- Disks -----

  datatype RawProbe = RawProbe(fstype: Option<string>, uuid: Option<string>, hasPartition: bool)

  // What probing a device reports. Only a file system has a uuid.
  type Probe = p: RawProbe | p.uuid.Some? ==> p.fstype.Some? && p.fstype.value != "" witness RawProbe(None, None, false)

  const NOTHING: Probe := RawProbe(None, None, false)

  predicate HasFilesystem(p: Probe) {
    p.fstype.Some? && p.fstype.value != ""
  }

  /** Formatting a device with this content loses nothing. */
  predicate Blank(p: Probe) {
    !HasFilesystem(p) && !p.hasPartition
  }

  // `Opaque` stands for directories and anything else that cannot be probed.
  datatype Node = File(size: nat, content: Probe) | BlockDevice(content: Probe) | Opaque

  datatype Machine = Machine(disk: map<string, Node>, logicalVolumes: set<string>) {
    predicate Probeable(path: string) {
      path in disk && !disk[path].Opaque?
    }

    function Content(path: string): Probe
      requires Probeable(path)
    {
      disk[path].content
    }

    function Fill(path: string, content: Probe): Machine
      requires Probeable(path)
    {
      Machine(disk[path := disk[path].(content := content)], logicalVolumes)
    }

    /** A file or device at this path has a file system or partitions. */
    predicate HoldsData(path: string) {
      && path in disk && !disk[path].Opaque?
      && ((disk[path].content.fstype.Some? && disk[path].content.fstype.value != "") || disk[path].content.hasPartition)
    }
  }

  // ----- Volumes -----

  datatype FsType = Ext4 | Xfs | Unsupported | Unspecified

  // `otherUuid` is a uuid that the options of `mkfs` set in place of the volume's own.
  datatype StorageClass = Unresolved | Resolved(fsType: FsType, validOptions: bool, otherUuid: Option<string>)

  type Size = n: nat | 0 < n witness 1

  // A size is `None` when its quantity cannot be read.
  datatype Backing =
    | RawBlockDevice(devicePath: string)
    | SparseLoopDevice(size: Option<Size>)
    | LVMLogicalVolume(vgName: string, size: Option<Size>)

  // `uuid` is the volume's uid in lower case.
  datatype Volume = Volume(name: string, uuid: string, backing: Backing, storageClass: StorageClass)

  function PathOf(v: Volume): string {
    match v.backing
    case RawBlockDevice(path) => path
    case SparseLoopDevice(_) => "/var/lib/metalk8s/storage/sparse/" + v.uuid
    case LVMLogicalVolume(vg, _) => "/dev/" + vg + "/" + v.name
  }

  /** Texts with the same start are the same exactly when they go on in the same way. */
  lemma SameStart(start: string, a: string, b: string)
    requires start + a == start + b
    ensures a == b
  {
    assert (start + a)[|start|..] == a && (start + b)[|start|..] == b;
  }

  /** Every sparse volume has a file of its own, by its uuid, in the directory of sparse files. */
  lemma SparsePathsDiffer(v: Volume, w: Volume)
    requires v.backing.SparseLoopDevice? && w.backing.SparseLoopDevice? && PathOf(v) == PathOf(w)
    ensures v.uuid == w.uuid
  {
    SameStart("/var/lib/metalk8s/storage/sparse/", v.uuid, w.uuid);
  }

  lemma SameHead(a: string, b: string, a': string, b': string)
    requires '/' !in a && '/' !in b && a + "/" + a' == b + "/" + b'
    ensures a == b && a' == b'
  {
    var text, text' := a + "/" + a', b + "/" + b';
    assert text[|a|] == '/' && text'[|b|] == '/';
    assert forall i | 0 <= i < |a| :: text[i] == a[i] != '/';
    assert forall i | 0 <= i < |b| :: text'[i] == b[i] != '/';
    assert text[..|a|] == a && text'[..|b|] == b;
    assert text[|a| + 1..] == a' && text'[|b| + 1..] == b';
  }

  /** Two logical volumes are the same device only for the same name in the same group. */
  lemma LogicalPathsDiffer(v: Volume, w: Volume)
    requires v.backing.LVMLogicalVolume? && w.backing.LVMLogicalVolume? && PathOf(v) == PathOf(w)
    requires '/' !in v.backing.vgName && '/' !in w.backing.vgName
    ensures v.backing.vgName == w.backing.vgName && v.name == w.name
  {
    var a, b := v.backing.vgName + "/" + v.name, w.backing.vgName + "/" + w.name;
    assert PathOf(v) == "/dev/" + a && PathOf(w) == "/dev/" + b;
    SameStart("/dev/", a, b);
    SameHead(v.backing.vgName, w.backing.vgName, v.name, w.name);
  }

  /** No logical volume is in the place of a sparse one. */
  lemma SparseIsNoLogicalVolume(v: Volume, w: Volume)
    requires v.backing.SparseLoopDevice? && w.backing.LVMLogicalVolume?
    ensures PathOf(v) != PathOf(w)
  {
    assert PathOf(v)[1] == 'v' && PathOf(w)[1] == 'd';
  }

  /** Where the storage of three volumes is. */
  lemma PathsOfExamples(v: Volume)
    requires v.name == "data" && v.uuid == "11"
    ensures v.backing.SparseLoopDevice? ==> PathOf(v) == "/var/lib/metalk8s/storage/sparse/11"
    ensures v.backing.LVMLogicalVolume? && v.backing.vgName == "vg" ==> PathOf(v) == "/dev/vg/data"
    ensures v.backing.RawBlockDevice? && v.backing.devicePath == "/dev/vdb" ==> PathOf(v) == "/dev/vdb"
  {
    assert "/dev/" + "vg" + "/" + "data" == "/dev/vg/data";
  }

  /** A file of exactly the declared size is at the volume's path. */
  predicate HasSparseFile(m: Machine, v: Volume)
    requires v.backing.SparseLoopDevice?
  {
    PathOf(v) in m.disk && m.disk[PathOf(v)].File? && v.backing.size == Some(m.disk[PathOf(v)].size)
  }

  /** There is a file of this size at this path. */
  predicate Sized(m: Machine, path: string, size: nat) {
    path in m.disk && m.disk[path].File? && m.disk[path].size == size
  }

  /** The sparse file's size cannot be compared, because the declared one cannot be read. */
  predicate Unreadable(m: Machine, v: Volume)
    requires v.backing.SparseLoopDevice?
  {
    PathOf(v) in m.disk && m.disk[PathOf(v)].File? && v.backing.size.None?
  }

  predicate Usable(class_: StorageClass) {
    class_.Resolved? && class_.validOptions && (class_.fsType.Ext4? || class_.fsType.Xfs?)
  }

  function FsName(fsType: FsType): string {
    if fsType.Ext4? then "ext4" else "xfs"
  }

  // The volumes of the pillar, all in Filesystem mode; `None` is of an unsupported type.
  type Pillar = map<string, Option<Volume>>

  /** The volume that the pillar describes under this name. */
  ghost function Named(pillar: Pillar, name: string): (v: Option<Volume>)
    ensures v.Some? <==> name in pillar && pillar[name].Some?
    ensures v.Some? ==> v == pillar[name]
  {
    if name in pillar then pillar[name] else None
  }

  // ----- What each state does -----

  datatype Op = Present | Prepared | Removed

  // A state's `result` is `None` in test mode when it would change something.
  datatype Ret = Ret(result: Option<bool>, changed: bool) | Raised

  const DONE := Ret(Some(true), true)
  const ALREADY := Ret(Some(true), false)
  const WOULD := Ret(None, true)
  const FAILED := Ret(Some(false), false)

  predicate Succeeds(r: Ret) {
    r.Ret? && r.result == Some(true)
  }

  // What the system calls do during one state: those that would succeed, and what is
  // left on a device by a format that fails, or found on a new logical volume.
  datatype Calls = Calls(
    opens: bool, truncates: bool, unlinks: bool, removes: bool,
    createsVolume: bool, probes: bool, probesAgain: bool, formats: bool, residue: Probe)

  datatype Step = Step(
    op: Op, volume: Option<Volume>, test: bool, calls: Calls, ret: Ret, before: Machine, after: Machine)

  /** The volume has its storage: a block device, a file of the declared size, or a logical volume. */
  ghost predicate Stored(m: Machine, v: Volume) {
    && (v.backing.RawBlockDevice? ==>
          v.backing.devicePath in m.disk && m.disk[v.backing.devicePath].BlockDevice?)
    && (v.backing.SparseLoopDevice? ==> v.backing.size.Some? && Sized(m, PathOf(v), v.backing.size.value))
    && (v.backing.LVMLogicalVolume? ==> PathOf(v) in m.logicalVolumes)
  }

  /** There is a file whose size should be compared with one that cannot be read. */
  ghost predicate CannotCompare(m: Machine, v: Volume) {
    v.backing == SparseLoopDevice(None) && PathOf(v) in m.disk && m.disk[PathOf(v)].File?
  }

  /** The storage of a volume exists. */
  predicate Exists(m: Machine, v: Volume) {
    match v.backing
    case RawBlockDevice(path) => path in m.disk && m.disk[path].BlockDevice?
    case SparseLoopDevice(_) => HasSparseFile(m, v)
    case LVMLogicalVolume(_, _) => PathOf(v) in m.logicalVolumes
  }

  predicate Carries(m: Machine, v: Volume) {
    m.Probeable(PathOf(v)) && m.Content(PathOf(v)).uuid == Some(v.uuid)
  }

  /** Storage can be created: there is nothing in its place, and the system calls work. */
  predicate Creatable(m: Machine, v: Volume, calls: Calls) {
    match v.backing
    case RawBlockDevice(_) => false
    case SparseLoopDevice(size) => PathOf(v) !in m.disk && size.Some? && calls.opens && calls.truncates
    case LVMLogicalVolume(_, size) => PathOf(v) !in m.disk && size.Some? && calls.createsVolume
  }

  /** The machine with the storage of the volume, and nothing else changed. */
  function WithStorage(m: Machine, v: Volume, calls: Calls): Machine
    requires Creatable(m, v, calls)
  {
    match v.backing
    case SparseLoopDevice(size) => m.(disk := m.disk[PathOf(v) := File(size.value, NOTHING)])
    case LVMLogicalVolume(_, _) =>
      Machine(m.disk[PathOf(v) := BlockDevice(calls.residue)], m.logicalVolumes + {PathOf(v)})
  }

  /** A new sparse file cannot get its size, and cannot be removed either: it is left empty. */
  predicate LeavesEmpty(m: Machine, v: Volume, calls: Calls) {
    && v.backing.SparseLoopDevice? && PathOf(v) !in m.disk && calls.opens
    && (v.backing.size.None? || !calls.truncates) && !calls.unlinks
  }

  function WithEmpty(m: Machine, v: Volume): Machine {
    m.(disk := m.disk[PathOf(v) := File(0, NOTHING)])
  }

  predicate PresentMeans(m: Machine, m': Machine, v: Volume, test: bool, calls: Calls, r: Ret) {
    if v.backing.SparseLoopDevice? && Unreadable(m, v) then r.Raised? && m' == m
    else if Exists(m, v) then r == ALREADY && m' == m
    else if test then r == WOULD && m' == m
    else if Creatable(m, v, calls) then r == DONE && m' == WithStorage(m, v, calls)
    else r == FAILED && m' == if LeavesEmpty(m, v, calls) then WithEmpty(m, v) else m
  }

  lemma PresentPromises(m: Machine, m': Machine, v: Volume, test: bool, calls: Calls, r: Ret)
    requires PresentMeans(m, m', v, test, calls, r)
    ensures r.Raised? <==> CannotCompare(m, v)
    ensures Succeeds(r) ==> Stored(m', v)
    ensures Stored(m, v) ==> r == Ret(Some(true), false) && m' == m
    ensures forall path | path in m.disk :: path in m'.disk && m'.disk[path] == m.disk[path]
  {
  }

  /** A preparation gets as far as formatting the device. */
  predicate Formattable(m: Machine, v: Volume, calls: Calls) {
    m.Probeable(PathOf(v)) && calls.probesAgain && Blank(m.Content(PathOf(v))) && Usable(v.storageClass)
  }

  /** The uuid that formatting a volume gives to its device: its own, unless the options say otherwise. */
  function NewUuid(v: Volume): string {
    if v.storageClass.Resolved? && v.storageClass.otherUuid.Some? then v.storageClass.otherUuid.value else v.uuid
  }

  /** What is on the device after a format. */
  function Formatted(v: Volume, calls: Calls): Probe
    requires Usable(v.storageClass)
  {
    if calls.formats then RawProbe(Some(FsName(v.storageClass.fsType)), Some(NewUuid(v)), false) else calls.residue
  }

  predicate PreparedMeans(m: Machine, m': Machine, v: Volume, test: bool, calls: Calls, r: Ret) {
    if !m.Probeable(PathOf(v)) || !calls.probes then r.Raised? && m' == m
    else if Carries(m, v) then r == ALREADY && m' == m
    else if test then r == WOULD && m' == m
    else if !Formattable(m, v, calls) then r == FAILED && m' == m
    else r == (if calls.formats then DONE else FAILED) && m' == m.Fill(PathOf(v), Formatted(v, calls))
  }

  predicate RemovedMeans(m: Machine, m': Machine, v: Volume, test: bool, calls: Calls, r: Ret) {
    if !v.backing.SparseLoopDevice? then r == ALREADY && m' == m
    else if Unreadable(m, v) then r.Raised? && m' == m
    else if !HasSparseFile(m, v) then r == ALREADY && m' == m
    else if test then r == WOULD && m' == m
    else if calls.removes then r == DONE && m' == m.(disk := m.disk - {PathOf(v)})
    else r == FAILED && m' == m
  }

  predicate StepMeans(s: Step) {
    match s.volume
    case None => s.ret.Raised? && s.after == s.before
    case Some(v) =>
      match s.op
      case Present => PresentMeans(s.before, s.after, v, s.test, s.calls, s.ret)
      case Prepared => PreparedMeans(s.before, s.after, v, s.test, s.calls, s.ret)
      case Removed => RemovedMeans(s.before, s.after, v, s.test, s.calls, s.ret)
  }

  ghost predicate IsLog(log: seq<Step>) {
    && (forall i | 0 <= i < |log| :: StepMeans(log[i]))
    && (forall i | 0 < i < |log| :: log[i - 1].after == log[i].before)
  }

  class Host {
    var machine: Machine
    const pillar: Pillar
    ghost var log: seq<Step>

    ghost predicate Valid()
      reads this
    {
      IsLog(log) && (log != [] ==> log[|log| - 1].after == machine)
    }

    constructor (machine: Machine, pillar: Pillar)
      ensures Valid() && log == [] && this.machine == machine && this.pillar == pillar
    {
      this.machine, this.pillar, log := machine, pillar, [];
    }

    function VolumeNamed(name: string): Option<Volume> {
      if name in pillar then pillar[name] else None
    }

    // ----- Storage devices -----

    method CreateSparse(v: Volume, calls: Calls) returns (ok: bool)
      requires v.backing.SparseLoopDevice?
      modifies this`machine
      ensures ok <==> Creatable(old(machine), v, calls)
      ensures machine == if ok then WithStorage(old(machine), v, calls)
                         else if LeavesEmpty(old(machine), v, calls) then WithEmpty(old(machine), v) else old(machine)
    {
      var path := PathOf(v);
      if path in machine.disk || !calls.opens {
        return false;
      }
      // The new file is empty until it is truncated to its size.
      machine := machine.(disk := machine.disk[path := File(0, NOTHING)]);
      if v.backing.size.None? || !calls.truncates {
        if calls.unlinks {
          machine := machine.(disk := machine.disk - {path});
          assert machine.disk == old(machine).disk;
        }
        return false;
      }
      machine := machine.(disk := machine.disk[path := File(v.backing.size.value, NOTHING)]);
      assert machine.disk == old(machine).disk[path := File(v.backing.size.value, NOTHING)];
      return true;
    }

    method CreateLogicalVolume(v: Volume, calls: Calls) returns (ok: bool)
      requires v.backing.LVMLogicalVolume?
      modifies this`machine
      ensures ok <==> Creatable(old(machine), v, calls)
      ensures machine == if ok then WithStorage(old(machine), v, calls) else old(machine)
    {
      var path := PathOf(v);
      if v.backing.size.None? || path in machine.disk || !calls.createsVolume {
        return false;
      }
      machine := Machine(machine.disk[path := BlockDevice(calls.residue)], machine.logicalVolumes + {path});
      return true;
    }

    method Create(v: Volume, calls: Calls) returns (ok: bool)
      modifies this`machine
      ensures ok <==> Creatable(old(machine), v, calls)
      ensures machine == if ok then WithStorage(old(machine), v, calls)
                         else if LeavesEmpty(old(machine), v, calls) then WithEmpty(old(machine), v) else old(machine)
    {
      match v.backing
      case RawBlockDevice(_) => ok := false;
      case SparseLoopDevice(_) => ok := CreateSparse(v, calls);
      case LVMLogicalVolume(_, _) => ok := CreateLogicalVolume(v, calls);
    }

    method ProbeDevice(path: string, probes: bool) returns (r: Option<Probe>)
      ensures r == if machine.Probeable(path) && probes then Some(machine.Content(path)) else None
    {
      r := if machine.Probeable(path) && probes then Some(machine.Content(path)) else None;
    }

    /** Format the device of the volume, unless there is anything on it. */
    method Prepare(v: Volume, calls: Calls) returns (ok: bool)
      modifies this`machine
      ensures ok <==> Formattable(old(machine), v, calls) && calls.formats
      ensures machine == if Formattable(old(machine), v, calls) then old(machine).Fill(PathOf(v), Formatted(v, calls))
                         else old(machine)
      ensures ok ==>
                var node := machine.disk[PathOf(v)];
                && !node.Opaque? && !node.content.hasPartition
                && node.content.fstype == Some(if v.storageClass.fsType.Ext4? then "ext4" else "xfs")
                && node.content.uuid ==
                   if v.storageClass.otherUuid.Some? then v.storageClass.otherUuid else Some(v.uuid)
    {
      var info := ProbeDevice(PathOf(v), calls.probesAgain);
      if info.None? {
        return false;
      }
      if HasFilesystem(info.value) {
        return false;
      }
      if info.value.hasPartition {
        return false;
      }
      if v.storageClass.Unresolved? || !v.storageClass.validOptions {
        return false;
      }
      if v.storageClass.fsType.Unsupported? || v.storageClass.fsType.Unspecified? {
        return false;
      }
      machine := machine.Fill(PathOf(v), Formatted(v, calls));
      ok := calls.formats;
    }

    method CleanUp(v: Volume, calls: Calls) returns (ok: bool)
      modifies this`machine
      ensures ok <==> !v.backing.SparseLoopDevice? || calls.removes
      ensures machine == if v.backing.SparseLoopDevice? && ok
                         then old(machine).(disk := old(machine).disk - {PathOf(v)}) else old(machine)
    {
      ok := true;
      if v.backing.SparseLoopDevice? {
        ok := calls.removes;
        if ok {
          machine := machine.(disk := machine.disk - {PathOf(v)});
        }
      }
    }

    // ----- States -----

    ghost method Note(op: Op, v: Option<Volume>, test: bool, calls: Calls, r: Ret, before: Machine)
      requires IsLog(log) && (log != [] ==> log[|log| - 1].after == before)
      requires StepMeans(Step(op, v, test, calls, r, before, machine))
      modifies this`log
      ensures Valid() && log == old(log) + [Step(op, v, test, calls, r, before, machine)]
    {
      log := log + [Step(op, v, test, calls, r, before, machine)];
    }

    /** Make sure that the volume's storage exists. */
    method EnsurePresent(name: string, test: bool, calls: Calls) returns (r: Ret)
      requires Valid()
      modifies this`machine, this`log
      ensures Valid()
      ensures log == old(log) + [Step(Present, Named(pillar, name), test, calls, r, old(machine), machine)]
      ensures r.Raised? <==> Named(pillar, name).None? || CannotCompare(old(machine), Named(pillar, name).value)
      ensures Succeeds(r) ==> Stored(machine, Named(pillar, name).value)
      ensures Named(pillar, name).Some? && Stored(old(machine), Named(pillar, name).value) ==>
                r == Ret(Some(true), false) && machine == old(machine)
      ensures forall path | path in old(machine).disk ::
                path in machine.disk && machine.disk[path] == old(machine).disk[path]
    {
      hide Creatable, WithStorage, LeavesEmpty, WithEmpty, Stored, Sized, PathOf;
      ghost var before := machine;
      var volume := VolumeNamed(name);
      if volume.None? {
        r := Raised;
      } else {
        var v := volume.value;
        if v.backing.SparseLoopDevice? && Unreadable(machine, v) {
          r := Raised;
        } else if Exists(machine, v) {
          r := ALREADY;
        } else if test {
          r := WOULD;
        } else {
          var ok := Create(v, calls);
          r := if ok then DONE else FAILED;
        }
        PresentPromises(before, machine, v, test, calls, r);
      }
      Note(Present, volume, test, calls, r, before);
    }

    /** Make sure that the volume's device is formatted for it. */
    method EnsurePrepared(name: string, test: bool, calls: Calls) returns (r: Ret)
      requires Valid()
      modifies this`machine, this`log
      ensures Valid()
      ensures log == old(log) + [Step(Prepared, Named(pillar, name), test, calls, r, old(machine), machine)]
      ensures r.Raised? <==> !calls.probes || Named(pillar, name).None?
                             || PathOf(Named(pillar, name).value) !in old(machine).disk
                             || old(machine).disk[PathOf(Named(pillar, name).value)].Opaque?
      ensures Succeeds(r) ==> machine.HoldsData(PathOf(Named(pillar, name).value))
      ensures machine.disk.Keys == old(machine).disk.Keys && machine.logicalVolumes == old(machine).logicalVolumes
      ensures forall path | path in old(machine).disk && machine.disk[path] != old(machine).disk[path] ::
                Named(pillar, name).Some? && path == PathOf(Named(pillar, name).value)
      ensures forall path | old(machine).HoldsData(path) ::
                path in machine.disk && machine.disk[path] == old(machine).disk[path]
    {
      ghost var before := machine;
      var volume := VolumeNamed(name);
      if volume.None? {
        r := Raised;
      } else {
        var v := volume.value;
        var info := ProbeDevice(PathOf(v), calls.probes);
        if info.None? {
          r := Raised;
        } else if info.value.uuid == Some(v.uuid) {
          r := ALREADY;
        } else if test {
          r := WOULD;
        } else {
          var ok := Prepare(v, calls);
          r := if ok then DONE else FAILED;
        }
      }
      Note(Prepared, volume, test, calls, r, before);
    }

    /** Make sure that the volume's storage is cleaned up. */
    method EnsureRemoved(name: string, test: bool, calls: Calls) returns (r: Ret)
      requires Valid()
      modifies this`machine, this`log
      ensures Valid()
      ensures log == old(log) + [Step(Removed, Named(pillar, name), test, calls, r, old(machine), machine)]
      ensures r.Raised? <==> Named(pillar, name).None? || CannotCompare(old(machine), Named(pillar, name).value)
      ensures Succeeds(r) && !test && Named(pillar, name).value.backing.SparseLoopDevice? ==>
                var v := Named(pillar, name).value;
                v.backing.size.Some? ==> !Sized(machine, PathOf(v), v.backing.size.value)
    {
      ghost var before := machine;
      var volume := VolumeNamed(name);
      if volume.None? {
        r := Raised;
      } else {
        var v := volume.value;
        if v.backing.SparseLoopDevice? && Unreadable(machine, v) {
          r := Raised;
        } else if !v.backing.SparseLoopDevice? || !HasSparseFile(machine, v) {
          r := ALREADY;
        } else if test {
          r := WOULD;
        } else {
          var ok := CleanUp(v, calls);
          r := if ok then DONE else FAILED;
        }
      }
      Note(Removed, volume, test, calls, r, before);
    }
  }

  /**
   What a state reports is what it did: a change exactly when it succeeded in changing
   something, nothing done in test mode, and no failure but for real.
   */
  lemma ReportsChanges(s: Step)
    requires StepMeans(s) && s.ret.Ret?
    ensures s.ret.result == Some(true) ==> (s.ret.changed <==> s.after != s.before)
    ensures s.ret.result == Some(false) ==> !s.ret.changed && !s.test
    ensures s.ret.result == None ==> s.ret.changed && s.test
    ensures s.test ==> s.after == s.before
  {
    if s.ret == DONE {
      var path := PathOf(s.volume.value);
      assert path !in s.before.disk || path !in s.after.disk || s.after.disk[path] != s.before.disk[path];
    }
  }

  // ----- Data safety -----

  /** The step is a removal that may delete what is at this path: a sparse file of its own volume. */
  predicate Deletes(s: Step, path: string) {
    && s.op.Removed? && !s.test
    && s.volume.Some? && s.volume.value.backing.SparseLoopDevice? && PathOf(s.volume.value) == path
  }

  /** No state ever changes a device that holds data, unless it deletes a volume's own sparse file. */
  lemma StepKeepsData(s: Step, path: string)
    requires StepMeans(s) && s.before.HoldsData(path)
    ensures Deletes(s, path) || (path in s.after.disk && s.after.disk[path] == s.before.disk[path])
  {
  }

  /** Over any run, a device that holds data keeps exactly that data as long as nothing deletes it. */
  lemma {:induction false} DataSurvives(log: seq<Step>, path: string)
    requires IsLog(log) && log != []
    requires log[0].before.HoldsData(path)
    requires forall i | 0 <= i < |log| :: !Deletes(log[i], path)
    ensures path in log[|log| - 1].after.disk
    ensures log[|log| - 1].after.disk[path] == log[0].before.disk[path]
  {
    var n := |log| - 1;
    if n > 0 {
      DataSurvives(log[..n], path);
    }
    StepKeepsData(log[n], path);
  }

  /**
   A successful preparation leaves data on the device, and a uuid: the volume's
   own exactly unless it was formatted with options that set another.
   */
  lemma PreparedCarries(s: Step)
    requires StepMeans(s) && s.op.Prepared? && s.volume.Some? && Succeeds(s.ret)
    ensures s.after.HoldsData(PathOf(s.volume.value))
    ensures s.after.Content(PathOf(s.volume.value)).uuid.Some?
    ensures Carries(s.after, s.volume.value) <==> s.ret == ALREADY || NewUuid(s.volume.value) == s.volume.value.uuid
  {
  }

  /**
   Once a volume is prepared, no run changes its device: preparing any volume on the
   same device changes nothing, and succeeds only for the one whose uuid is there.
   */
  lemma {:induction false} PreparedForever(log: seq<Step>, i: nat, j: nat, v: Volume)
    requires IsLog(log) && i < j < |log|
    requires log[i].op.Prepared? && log[i].volume == Some(v) && Succeeds(log[i].ret)
    requires forall k | i < k <= j :: !Deletes(log[k], PathOf(v))
    ensures PathOf(v) in log[j].after.disk
    ensures log[j].after.disk[PathOf(v)] == log[i].after.disk[PathOf(v)]
    ensures log[j].op.Prepared? && log[j].volume.Some? && PathOf(log[j].volume.value) == PathOf(v) ==>
              if Carries(log[i].after, log[j].volume.value)
              then log[j].ret in {ALREADY, Raised} && log[j].after == log[j].before
              else log[j].ret in {WOULD, FAILED, Raised} && log[j].after == log[j].before
  {
    hide StepMeans, PathOf;
    var path := PathOf(v);
    PreparedCarries(log[i]);
    assert log[i].after == log[i + 1].before;
    SubLog(log, i + 1, j + 1);
    DataSurvives(log[i + 1..j + 1], path);
    assert log[j - 1].after == log[j].before;
    if j > i + 1 {
      SubLog(log, i + 1, j);
      DataSurvives(log[i + 1..j], path);
    }
    if log[j].op.Prepared? && log[j].volume.Some? && PathOf(log[j].volume.value) == path {
      PreparedOver(log[j]);
    }
  }

  /** Preparing a volume whose device carries a uuid: nothing changes, and it succeeds only if that is its own. */
  lemma PreparedOver(s: Step)
    requires StepMeans(s) && s.op.Prepared? && s.volume.Some?
    requires s.before.Probeable(PathOf(s.volume.value)) && s.before.Content(PathOf(s.volume.value)).uuid.Some?
    ensures s.after == s.before
    ensures if Carries(s.before, s.volume.value) then s.ret in {ALREADY, Raised} else s.ret in {WOULD, FAILED, Raised}
  {
    hide PathOf;
  }

  lemma SubLog(log: seq<Step>, i: nat, j: nat)
    requires IsLog(log) && i < j <= |log|
    ensures IsLog(log[i..j])
    ensures log[i..j][0] == log[i] && log[i..j][j - i - 1] == log[j - 1]
  {
    var part := log[i..j];
    forall k | 0 < k < |part| ensures part[k - 1].after == part[k].before {
      assert log[i + k - 1].after == log[i + k].before;
    }
  }

  // ----- Sparse storage -----

  /** Making storage present never touches anything that exists, be it of the wrong size. */
  lemma PresentClobbersNothing(s: Step, path: string)
    requires StepMeans(s) && s.op.Present? && path in s.before.disk
    ensures path in s.after.disk && s.after.disk[path] == s.before.disk[path]
  {
  }

  /**
   Present, for real, on a sparse volume: it succeeds with a file of exactly the
   declared size, or fails and leaves the disk as it was. The exception is a new
   file whose truncation and removal both fail, which stays there, empty.
   */
  lemma PresentSparse(s: Step, v: Volume)
    requires StepMeans(s) && s.op.Present? && s.volume == Some(v) && v.backing.SparseLoopDevice? && !s.test
    ensures Succeeds(s.ret) <==> HasSparseFile(s.after, v)
    ensures !Succeeds(s.ret) ==>
              s.after == if s.ret == FAILED && LeavesEmpty(s.before, v, s.calls) then WithEmpty(s.before, v)
                         else s.before
  {
  }

  /** The step puts a sparse volume of this path and declared size, for real, in the state `op`. */
  predicate Puts(s: Step, op: Op, path: string, size: nat) {
    && s.op == op && !s.test && s.volume.Some? && s.volume.value.backing.SparseLoopDevice?
    && PathOf(s.volume.value) == path && s.volume.value.backing.size == Some(size)
  }

  lemma StepKeepsSize(s: Step, path: string, size: nat)
    requires StepMeans(s)
    ensures Sized(s.before, path, size) && !Puts(s, Removed, path, size) ==> Sized(s.after, path, size)
    ensures !Sized(s.before, path, size) && !Puts(s, Present, path, size) && 0 < size ==> !Sized(s.after, path, size)
  {
    hide PathOf;
  }

  /**
   Over any run of any states on any volumes, a file of a certain size goes only by
   removing a volume that declares it and, unless it is empty, comes only by making
   such a volume present.
   */
  lemma {:induction false} SizeOverRun(log: seq<Step>, path: string, size: nat)
    requires IsLog(log) && log != []
    ensures Sized(log[0].before, path, size) && (forall k | 0 <= k < |log| :: !Puts(log[k], Removed, path, size)) ==>
              Sized(log[|log| - 1].after, path, size)
    ensures 0 < size && !Sized(log[0].before, path, size)
            && (forall k | 0 <= k < |log| :: !Puts(log[k], Present, path, size)) ==>
              !Sized(log[|log| - 1].after, path, size)
  {
    hide StepMeans, Sized, Puts;
    var n := |log| - 1;
    if n > 0 {
      SizeOverRun(log[..n], path, size);
    }
    StepKeepsSize(log[n], path, size);
  }

  /** The same between two steps of a run: the states before and after the one at `j`. */
  lemma SizeBetween(log: seq<Step>, i: nat, j: nat, path: string, size: nat)
    requires IsLog(log) && i < j < |log|
    ensures Sized(log[i].after, path, size) && (forall k | i < k <= j :: !Puts(log[k], Removed, path, size)) ==>
              Sized(log[j].before, path, size) && Sized(log[j].after, path, size)
    ensures 0 < size && !Sized(log[i].after, path, size)
            && (forall k | i < k <= j :: !Puts(log[k], Present, path, size)) ==>
              !Sized(log[j].before, path, size) && !Sized(log[j].after, path, size)
  {
    hide StepMeans, Sized, Puts;
    assert log[i].after == log[i + 1].before && log[j - 1].after == log[j].before;
    SubLog(log, i + 1, j + 1);
    SizeOverRun(log[i + 1..j + 1], path, size);
    if j > i + 1 {
      SubLog(log, i + 1, j);
      SizeOverRun(log[i + 1..j], path, size);
    }
  }

  /**
   Once a sparse volume was made present, its file is there, of its exact size,
   whatever is done but to remove it; and making it present again does nothing.
   */
  lemma PresentForever(log: seq<Step>, i: nat, j: nat, v: Volume)
    requires IsLog(log) && i < j < |log| && v.backing.SparseLoopDevice?
    requires log[i].op.Present? && !log[i].test && log[i].volume == Some(v) && Succeeds(log[i].ret)
    requires forall k | i < k <= j :: !Puts(log[k], Removed, PathOf(v), v.backing.size.value)
    ensures HasSparseFile(log[j].before, v) && HasSparseFile(log[j].after, v)
    ensures log[j].op.Present? && log[j].volume == Some(v) ==> log[j].ret == ALREADY && log[j].after == log[j].before
  {
    hide PathOf;
    PresentSparse(log[i], v);
    SizeBetween(log, i, j, PathOf(v), v.backing.size.value);
  }

  /**
   Once a sparse volume was removed, there is no file of its size, whatever is done
   but to make it present; and removing it again does nothing.
   */
  lemma RemovedForever(log: seq<Step>, i: nat, j: nat, v: Volume)
    requires IsLog(log) && i < j < |log| && v.backing.SparseLoopDevice?
    requires log[i].op.Removed? && !log[i].test && log[i].volume == Some(v) && Succeeds(log[i].ret)
    requires forall k | i < k <= j && v.backing.size.Some? :: !Puts(log[k], Present, PathOf(v), v.backing.size.value)
    ensures !HasSparseFile(log[j].before, v) && !HasSparseFile(log[j].after, v)
    ensures log[j].op.Removed? && log[j].volume == Some(v) && v.backing.size.Some? ==>
              log[j].ret == ALREADY && log[j].after == log[j].before
  {
    hide PathOf;
    if v.backing.size.Some? {
      SizeBetween(log, i, j, PathOf(v), v.backing.size.value);
    }
  }

  /**
   A file that was left empty stays for ever: no state on any volume removes it, and
   the volume can never be made present.
   */
  lemma LeftEmptyForever(log: seq<Step>, i: nat, j: nat, v: Volume)
    requires IsLog(log) && i < j < |log|
    requires log[i].op.Present? && !log[i].test && log[i].volume == Some(v)
    requires LeavesEmpty(log[i].before, v, log[i].calls)
    ensures Sized(log[j].before, PathOf(v), 0) && Sized(log[j].after, PathOf(v), 0)
    ensures log[j].op.Present? && log[j].volume == Some(v) ==> !Succeeds(log[j].ret) && log[j].after == log[j].before
  {
    hide PathOf;
    SizeBetween(log, i, j, PathOf(v), 0);
  }

  /**
   Two sparse volumes with different uuids do not meet: no state of the one makes,
   removes or resizes the file of the other.
   */
  lemma SparseVolumesApart(log: seq<Step>, k: nat, v: Volume)
    requires IsLog(log) && k < |log| && v.backing.SparseLoopDevice?
    requires log[k].volume.Some? && log[k].volume.value.backing.SparseLoopDevice?
    requires log[k].volume.value.uuid != v.uuid
    ensures HasSparseFile(log[k].after, v) <==> HasSparseFile(log[k].before, v)
    ensures PathOf(v) in log[k].before.disk <==> PathOf(v) in log[k].after.disk
    ensures PathOf(v) in log[k].before.disk ==> log[k].after.disk[PathOf(v)] == log[k].before.disk[PathOf(v)]
  {
    var w := log[k].volume.value;
    if PathOf(v) == PathOf(w) {
      SparsePathsDiffer(v, w);
    }
    assert StepMeans(log[k]);
    OtherPathsKept(log[k], PathOf(v));
  }

  /** A state touches no place but that of its volume. */
  lemma OtherPathsKept(s: Step, path: string)
    requires StepMeans(s) && (s.volume.Some? ==> PathOf(s.volume.value) != path)
    ensures path in s.before.disk <==> path in s.after.disk
    ensures path in s.before.disk ==> s.after.disk[path] == s.before.disk[path]
  {
    hide PathOf;
  }

  /** So making a sparse volume present is about its own file, whatever other volumes were made present before. */
  lemma {:induction false} EachHasItsOwn(log: seq<Step>, i: nat, j: nat, v: Volume)
    requires IsLog(log) && i <= j < |log| && v.backing.SparseLoopDevice?
    requires forall k | i <= k <= j ::
               && log[k].volume.Some? && log[k].volume.value.backing.SparseLoopDevice?
               && log[k].volume.value.uuid != v.uuid
    ensures HasSparseFile(log[j].after, v) <==> HasSparseFile(log[i].before, v)
    decreases j
  {
    hide StepMeans, HasSparseFile;
    SparseVolumesApart(log, j, v);
    if i < j {
      EachHasItsOwn(log, i, j - 1, v);
      assert log[j - 1].after == log[j].before;
    }
  }
}
