/**
 * One pass of the two-way copy between the picked folder and a mirror (ExchangeMirror.swift).
 *
 * A folder is a map from file names to files. A pass reads and writes at most one file per record
 * name on each side, so its meaning is given name by name, by `JoinedAt`.
 */
module ExchangeMirror {
  import opened Basics
  import opened RecordEnvelope

  /** A file in a records folder: bytes that can be read, or one whose read fails. */
  datatype File = Readable(data: seq<Byte>) | Unreadable

  type Folder = map<string, File>

  /** The folder holds a valid copy of record `n`. */
  ghost predicate Holds(hash: Hash, f: Folder, n: string) {
    n in f && f[n].Readable? && ValidRecord(hash, n, f[n].data)
  }

  ghost predicate SameAt(f: Folder, g: Folder, n: string) {
    (n in f <==> n in g) && (n in f ==> f[n] == g[n])
  }

  /**
   * What a pass makes of the two copies of `n`: a valid copy is kept, and handed to a side that
   * has none; where neither side is valid, nothing is written.
   */
  ghost predicate JoinedAt(hash: Hash, n: string, r0: Folder, m0: Folder, r1: Folder, m1: Folder) {
    && (Holds(hash, r0, n) || !Holds(hash, m0, n) ==> SameAt(r0, r1, n))
    && (Holds(hash, m0, n) || !Holds(hash, r0, n) ==> SameAt(m0, m1, n))
    && (Holds(hash, r0, n) && !Holds(hash, m0, n) ==> n in m1 && m1[n] == r0[n])
    && (Holds(hash, m0, n) && !Holds(hash, r0, n) ==> n in r1 && r1[n] == m0[n])
  }

  ghost predicate UntouchedAt(n: string, r0: Folder, m0: Folder, r1: Folder, m1: Folder) {
    SameAt(r0, r1, n) && SameAt(m0, m1, n)
  }

  /** A pass that joins every name but the `skipped` ones, which it leaves alone on both sides. */
  ghost predicate Pass(hash: Hash, skipped: set<string>, r0: Folder, m0: Folder, r1: Folder, m1: Folder) {
    forall n ::
      if n in skipped then UntouchedAt(n, r0, m0, r1, m1) else JoinedAt(hash, n, r0, m0, r1, m1)
  }

  /** The names whose file differs from `f` to `g`. */
  function Changed(f: Folder, g: Folder): set<string> {
    set n | n in g && (n !in f || f[n] != g[n])
  }

  // ---- Names ----

  /** The real name behind an iCloud placeholder, if it is one. */
  function PlaceholderTarget(name: string): Option<string> {
    if |name| > 8 && name[0] == '.' && EndsWith(name, ".icloud")
    then Some(name[1..|name| - 7])
    else None
  }

  /** Placeholders and the names they stand for determine each other. */
  lemma PlaceholderExactly(name: string, target: string)
    ensures PlaceholderTarget(name) == Some(target) <==> target != "" && name == "." + target + ".icloud"
  {
    if PlaceholderTarget(name) == Some(target) {
      assert name == name[..1] + name[1..|name| - 7] + name[|name| - 7..];
    }
    if target != "" && name == "." + target + ".icloud" {
      assert name[|name| - 7..] == ".icloud" && name[1..|name| - 7] == target;
    }
  }

  lemma RecordNamesAreNoPlaceholders(name: string)
    requires IsRecordName(name)
    ensures PlaceholderTarget(name) == None
  {
    var k := |name| - 4;
    assert name[k] == name[k..][0];
    if EndsWith(name, ".icloud") {
      assert name[k] == name[|name| - 7..][3];
    }
  }

  lemma ValidRecordsHaveRecordNames(hash: Hash, n: string, data: seq<Byte>)
    requires ValidRecord(hash, n, data)
    ensures IsRecordName(n) && data != []
  {
    var e :| Encodes(data, e) && n == RecordName(hash, e);
    RecordNameIsRecordName(hash, e);
  }

  /** The record, if any, that the listing entry `name` says is still to be downloaded. */
  function Awaits(name: string, names: set<string>, downloaded: set<string>): Option<string> {
    match PlaceholderTarget(name)
    case Some(target) => if IsRecordName(target) && target !in names then Some(target) else None
    case None => if IsRecordName(name) && name !in downloaded then Some(name) else None
  }

  function Awaited(scanned: set<string>, names: set<string>, downloaded: set<string>): set<string> {
    set n | n in scanned && Awaits(n, names, downloaded).Some? :: Awaits(n, names, downloaded).value
  }

  function ReadyAmong(scanned: set<string>, downloaded: set<string>): set<string> {
    set n | n in scanned && IsRecordName(n) && n in downloaded
  }

  lemma ScanOne(scanned: set<string>, name: string, names: set<string>, downloaded: set<string>)
    ensures var awaits := Awaits(name, names, downloaded);
            Awaited(scanned + {name}, names, downloaded)
            == Awaited(scanned, names, downloaded) + if awaits.Some? then {awaits.value} else {}
    ensures ReadyAmong(scanned + {name}, downloaded)
            == ReadyAmong(scanned, downloaded)
               + if PlaceholderTarget(name).None? && IsRecordName(name) && name in downloaded then {name} else {}
  {
    if IsRecordName(name) {
      RecordNamesAreNoPlaceholders(name);
    }
  }

  /**
   * A record is pending exactly when the listing shows it undownloaded, or shows only its
   * placeholder.
   */
  lemma AwaitedExactly(names: set<string>, downloaded: set<string>, target: string)
    ensures target in Awaited(names, names, downloaded) <==>
            && IsRecordName(target)
            && (target in names ==> target !in downloaded)
            && (target !in names ==> "." + target + ".icloud" in names)
  {
    var placeholder := "." + target + ".icloud";
    if IsRecordName(target) {
      RecordNamesAreNoPlaceholders(target);
      PlaceholderExactly(placeholder, target);
      if target in names {
        assert Awaits(target, names, downloaded) == if target in downloaded then None else Some(target);
      } else if placeholder in names {
        assert Awaits(placeholder, names, downloaded) == Some(target);
      }
    }
    forall n | n in names && Awaits(n, names, downloaded) == Some(target)
      ensures n == target || n == placeholder
    {
      if PlaceholderTarget(n).Some? {
        PlaceholderExactly(n, target);
      }
    }
  }

  /** The listing accounts for every record name, once. */
  lemma ListingSplits(names: set<string>, downloaded: set<string>)
    ensures ReadyAmong(names, downloaded) !! Awaited(names, names, downloaded)
    ensures forall n | n in names && IsRecordName(n) ::
              n in ReadyAmong(names, downloaded) || n in Awaited(names, names, downloaded)
  {
    forall n | n in names && IsRecordName(n)
      ensures n in ReadyAmong(names, downloaded) <==> n !in Awaited(names, names, downloaded)
    {
      AwaitedExactly(names, downloaded, n);
    }
  }

  /** Downloaded records that the listing did not know leave what is pending as it is. */
  lemma NewRecordsAreNotPending(names: set<string>, downloaded: set<string>, more: set<string>)
    requires forall n | n in more :: IsRecordName(n) && n !in names && n !in Awaited(names, names, downloaded)
    ensures Awaited(names + more, names + more, downloaded + more) == Awaited(names, names, downloaded)
  {
    forall target
      ensures target in Awaited(names + more, names + more, downloaded + more)
          <==> target in Awaited(names, names, downloaded)
    {
      AwaitedExactly(names + more, downloaded + more, target);
      AwaitedExactly(names, downloaded, target);
      if IsRecordName(target) {
        var placeholder := "." + target + ".icloud";
        PlaceholderExactly(placeholder, target);
        if placeholder in more {
          RecordNamesAreNoPlaceholders(placeholder);
        }
      }
    }
  }

  // ---- The pass ----

  /** What a pass writes into the picked folder under a new name is downloaded there, and nothing else becomes so. */
  ghost predicate Grew(d0: set<string>, d1: set<string>, r0: Folder, r1: Folder) {
    r0.Keys <= r1.Keys && d1 == d0 + (r1.Keys - r0.Keys)
  }

  datatype Report = Report(pulled: nat, pushed: nat, pending: nat)

  datatype Outcome = Done(report: Report) | Threw

  /** What trying to copy one file came to. */
  datatype Copy = Copied | Skipped | Failed

  /** Where a pass starts: both folders, and the names whose write fails on either side. */
  datatype Start = Start(hash: Hash, remote: Folder, mirror: Folder,
                         remoteRefuses: set<string>, mirrorRefuses: set<string>) {
    /** A copy that has to be read or written for `n` fails. */
    ghost predicate CannotCopy(n: string) {
      || (n in remote && IsRecordName(n) && remote[n].Unreadable? && !Holds(hash, mirror, n))
      || (Holds(hash, remote, n) && !Holds(hash, mirror, n) && n in mirrorRefuses)
      || (Holds(hash, mirror, n) && !Holds(hash, remote, n) && n in remoteRefuses)
    }
  }

  /** What fails at a name depends on nothing else. */
  lemma SameTrouble(a: Start, b: Start, n: string)
    requires a.hash == b.hash && a.remoteRefuses == b.remoteRefuses && a.mirrorRefuses == b.mirrorRefuses
    requires UntouchedAt(n, a.remote, a.mirror, b.remote, b.mirror)
    ensures a.CannotCopy(n) <==> b.CannotCopy(n)
  {
  }

  /** `g` is `f`, or `f` with the file at `n` written. */
  ghost predicate Wrote(f: Folder, g: Folder, n: string) {
    g == f || (n in g && g == f[n := g[n]])
  }

  /** The names of `done` have been joined, no others touched, and what was counted is what changed. */
  ghost predicate Progress(from: Start, done: set<string>, r: Folder, m: Folder, report: Report) {
    && (forall n :: if n in done then JoinedAt(from.hash, n, from.remote, from.mirror, r, m)
                    else UntouchedAt(n, from.remote, from.mirror, r, m))
    && report.pulled == |Changed(from.mirror, m)|
    && report.pushed == |Changed(from.remote, r)|
    && forall n | n in done :: !from.CannotCopy(n)
  }

  lemma ChangedByWrite(f0: Folder, f1: Folder, n: string, file: File)
    requires SameAt(f0, f1, n) && (n in f1 ==> f1[n] != file)
    ensures n !in Changed(f0, f1)
    ensures Changed(f0, f1[n := file]) == Changed(f0, f1) + {n}
  {
  }

  /** A write at an untouched name is one more changed name, when it changes the bytes. */
  lemma CountChange(f0: Folder, f1: Folder, f2: Folder, n: string)
    requires SameAt(f0, f1, n) && Wrote(f1, f2, n)
    ensures |Changed(f0, f2)| == |Changed(f0, f1)| + if SameAt(f1, f2, n) then 0 else 1
  {
    if f2 != f1 {
      ChangedByWrite(f0, f1, n, f2[n]);
    }
  }

  lemma ProgressStep(from: Start, done: set<string>, n: string, r1: Folder, m1: Folder,
                     r2: Folder, m2: Folder, before: Report, after: Report)
    requires Progress(from, done, r1, m1, before) && n !in done && !from.CannotCopy(n)
    requires JoinedAt(from.hash, n, r1, m1, r2, m2) && Wrote(r1, r2, n) && Wrote(m1, m2, n)
    requires after.pulled == before.pulled + if SameAt(m1, m2, n) then 0 else 1
    requires after.pushed == before.pushed + if SameAt(r1, r2, n) then 0 else 1
    ensures Progress(from, done + {n}, r2, m2, after)
  {
    var r0, m0 := from.remote, from.mirror;
    CountChange(m0, m1, m2, n);
    CountChange(r0, r1, r2, n);
    forall k
      ensures if k in done + {n} then JoinedAt(from.hash, k, r0, m0, r2, m2) else UntouchedAt(k, r0, m0, r2, m2)
    {
      assert k != n ==> UntouchedAt(k, r1, m1, r2, m2);
    }
  }

  /** Names that no listing shows on either side, or that are no record names, have nothing to join. */
  lemma ProgressIsPass(from: Start, done: set<string>, skipped: set<string>, r: Folder, m: Folder, report: Report)
    requires Progress(from, done, r, m, report) && done !! skipped
    requires forall n | IsRecordName(n) && (n in from.remote || n in from.mirror) :: n in done || n in skipped
    ensures Pass(from.hash, skipped, from.remote, from.mirror, r, m)
    ensures forall n | from.CannotCopy(n) :: n in skipped
  {
    forall n
      ensures Holds(from.hash, from.remote, n) || Holds(from.hash, from.mirror, n) ==> IsRecordName(n)
    {
      if Holds(from.hash, from.remote, n) {
        ValidRecordsHaveRecordNames(from.hash, n, from.remote[n].data);
      }
      if Holds(from.hash, from.mirror, n) {
        ValidRecordsHaveRecordNames(from.hash, n, from.mirror[n].data);
      }
    }
  }

  /** A pass that stopped early is a pass that skipped what it did not come to. */
  lemma PartialPass(from: Start, done: set<string>, pending: set<string>, r: Folder, m: Folder, report: Report)
    returns (skipped: set<string>)
    requires Progress(from, done, r, m, report) && done !! pending
    ensures Pass(from.hash, skipped, from.remote, from.mirror, r, m) && pending <= skipped
  {
    skipped := pending + (from.remote.Keys + from.mirror.Keys - done);
    ProgressIsPass(from, done, skipped, r, m, report);
  }

  class ExchangeMirror {
    const hash: Hash
    /** The picked folder's `records`, placeholders included, as this device sees it. */
    var remote: Folder
    /** The entries of `remote` that are regular files and downloaded. */
    var downloaded: set<string>
    var mirror: Folder
    /** The names whose write fails (a full disk, say), on either side. */
    var remoteRefuses: set<string>
    var mirrorRefuses: set<string>
    /** The downloads asked for so far. */
    var requested: set<string>

    constructor (hash: Hash, remote: Folder, downloaded: set<string>, mirror: Folder,
                 remoteRefuses: set<string>, mirrorRefuses: set<string>)
      ensures this.hash == hash && this.remote == remote && this.downloaded == downloaded
      ensures this.mirror == mirror && this.requested == {}
      ensures this.remoteRefuses == remoteRefuses && this.mirrorRefuses == mirrorRefuses
    {
      this.hash := hash;
      this.remote, this.downloaded, this.mirror := remote, downloaded, mirror;
      this.remoteRefuses, this.mirrorRefuses, this.requested := remoteRefuses, mirrorRefuses, {};
    }

    ghost function Here(): Start
      reads this
    {
      Start(hash, remote, mirror, remoteRefuses, mirrorRefuses)
    }

    ghost function Ready(): set<string>
      reads this
    {
      ReadyAmong(remote.Keys, downloaded)
    }

    ghost function Pending(): set<string>
      reads this
    {
      Awaited(remote.Keys, remote.Keys, downloaded)
    }

    /** The picked folder's record names, split into downloaded and still to download. */
    method ListRemote() returns (ready: set<string>, pending: set<string>)
      modifies this`requested
      ensures ready == Ready() && pending == Pending()
      ensures requested == old(requested) + pending
    {
      ready, pending := {}, {};
      var names := remote.Keys;
      var scanned: set<string> := {};
      while scanned != names
        invariant scanned <= names == remote.Keys
        invariant ready == ReadyAmong(scanned, downloaded)
        invariant pending == Awaited(scanned, names, downloaded)
        invariant requested == old(requested) + pending
        decreases names - scanned
      {
        ghost var left := SomethingLeft(names, scanned);
        var name :| name in names && name !in scanned;
        ScanOne(scanned, name, names, downloaded);
        scanned := scanned + {name};
        var target := PlaceholderTarget(name);
        if target.Some? {
          if IsRecordName(target.value) && target.value !in names {
            pending := pending + {target.value};
            requested := requested + {target.value};
          }
        } else if IsRecordName(name) {
          if name in downloaded {
            ready := ready + {name};
          } else {
            pending := pending + {name};
            requested := requested + {name};
          }
        }
      }
    }

    /** Whether the file `n` of `folder` is valid; one that cannot be read is not. */
    method IsValidIn(folder: Folder, n: string) returns (valid: bool)
      requires n in folder
      ensures valid <==> Holds(hash, folder, n)
    {
      if folder[n].Unreadable? {
        return false;
      }
      valid := IsValidRecord(hash, n, folder[n].data);
    }

    /** Copies a record into the mirror; a file that is there is left alone unless it may be replaced. */
    method Pull(n: string, replacing: bool) returns (c: Copy)
      requires n in remote
      modifies this`mirror
      ensures c == if remote[n].Unreadable? then Failed
                   else if !ValidRecord(hash, n, remote[n].data) then Skipped
                   else if n in mirrorRefuses && (n !in old(mirror) || replacing) then Failed else Copied
      ensures mirror == if c.Copied? && (n !in old(mirror) || replacing)
                        then old(mirror)[n := remote[n]] else old(mirror)
    {
      if remote[n].Unreadable? {
        return Failed;
      }
      var data := remote[n].data;
      if data == [] {
        if ValidRecord(hash, n, data) {
          ValidRecordsHaveRecordNames(hash, n, data);
        }
        return Skipped;
      }
      var valid := IsValidRecord(hash, n, data);
      if !valid {
        return Skipped;
      }
      if n in mirror && !replacing {
        return Copied;
      }
      if n in mirrorRefuses {
        return Failed;
      }
      mirror := mirror[n := Readable(data)];
      return Copied;
    }

    /** Copies a record into the picked folder, where it is downloaded from then on. */
    method Push(n: string, replacing: bool) returns (c: Copy)
      requires n in mirror
      modifies this`remote, this`downloaded
      ensures c == if mirror[n].Unreadable? then Failed
                   else if !ValidRecord(hash, n, mirror[n].data) then Skipped
                   else if n in remoteRefuses && (n !in old(remote) || replacing) then Failed else Copied
      ensures if c.Copied? && (n !in old(remote) || replacing)
              then remote == old(remote)[n := mirror[n]] && downloaded == old(downloaded) + {n}
              else remote == old(remote) && downloaded == old(downloaded)
    {
      if mirror[n].Unreadable? {
        return Failed;
      }
      var data := mirror[n].data;
      if data == [] {
        if ValidRecord(hash, n, data) {
          ValidRecordsHaveRecordNames(hash, n, data);
        }
        return Skipped;
      }
      var valid := IsValidRecord(hash, n, data);
      if !valid {
        return Skipped;
      }
      if !replacing && n in remote {
        return Copied;
      }
      if n in remoteRefuses {
        return Failed;
      }
      remote, downloaded := remote[n := Readable(data)], downloaded + {n};
      return Copied;
    }

    /** The first loop's body: one downloaded name of the picked folder. */
    method In(n: string, mirrorNames: set<string>, report: Report) returns (o: Outcome)
      requires n in remote && IsRecordName(n) && n in downloaded && (n in mirrorNames <==> n in mirror)
      modifies this`remote, this`mirror, this`downloaded
      ensures remote.Keys == old(remote.Keys) && downloaded == old(downloaded)
      ensures o.Threw? <==> old(Here()).CannotCopy(n)
      ensures o.Threw? ==> remote == old(remote) && mirror == old(mirror)
      ensures o.Done? ==>
                && JoinedAt(hash, n, old(remote), old(mirror), remote, mirror)
                && o.report.pulled == report.pulled + (if SameAt(old(mirror), mirror, n) then 0 else 1)
                && o.report.pushed == report.pushed + (if SameAt(old(remote), remote, n) then 0 else 1)
                && o.report.pending == report.pending
      ensures Wrote(old(remote), remote, n) && Wrote(old(mirror), mirror, n)
    {
      if n in mirrorNames {
        var hereValid := IsValidIn(mirror, n);
        if hereValid {
          var thereValid := IsValidIn(remote, n);
          if thereValid {
            return Done(report);
          }
        }
        if !hereValid {
          var c := Pull(n, true);
          return match c
            case Failed => Threw
            case Copied => Done(report.(pulled := report.pulled + 1))
            case Skipped => Done(report);
        } else {
          var c := Push(n, true);
          return match c
            case Failed => Threw
            case Copied => Done(report.(pushed := report.pushed + 1))
            case Skipped => Done(report);
        }
      }
      var c := Pull(n, false);
      return match c
        case Failed => Threw
        case Copied => Done(report.(pulled := report.pulled + 1))
        case Skipped => Done(report);
    }

    /** The second loop's body: one mirror name that the picked folder does not know. */
    method Out(n: string, report: Report) returns (o: Outcome)
      requires n in mirror && n !in remote
      modifies this`remote, this`downloaded
      ensures o.Threw? <==> old(Here()).CannotCopy(n)
      ensures o.Threw? ==> remote == old(remote)
      ensures o.Done? ==>
                && JoinedAt(hash, n, old(remote), mirror, remote, mirror)
                && o.report == report.(pushed := report.pushed + if SameAt(old(remote), remote, n) then 0 else 1)
      ensures Wrote(old(remote), remote, n) && Grew(old(downloaded), downloaded, old(remote), remote)
    {
      var valid := IsValidIn(mirror, n);
      if !valid {
        return Done(report);
      }
      var c := Push(n, false);
      return match c
        case Failed => Threw
        case Copied => Done(report.(pushed := report.pushed + 1))
        case Skipped => Done(report);
    }

    /** The first loop: every downloaded record name of the picked folder. */
    method CopyIn(ready: set<string>, pending: nat)
      returns (o: Outcome, ghost done: set<string>, ghost report: Report)
      requires forall n | n in ready :: n in remote && IsRecordName(n) && n in downloaded
      modifies this`remote, this`mirror, this`downloaded
      ensures remote.Keys == old(remote.Keys) && downloaded == old(downloaded)
      ensures Progress(old(Here()), done, remote, mirror, report) && done <= ready
      ensures match o
              case Done(r) => r == report && r.pending == pending && done == ready
              case Threw => exists n :: n in ready && old(Here()).CannotCopy(n)
    {
      ghost var from := Here();
      var current := Report(0, 0, pending);
      var mirrorNames := mirror.Keys;
      var seen: set<string> := {};
      assert Changed(mirror, mirror) == {} && Changed(remote, remote) == {};
      while seen != ready
        invariant seen <= ready && current.pending == pending
        invariant Progress(from, seen, remote, mirror, current)
        invariant remote.Keys == old(remote.Keys) && downloaded == old(downloaded)
        decreases ready - seen
      {
        ghost var left := SomethingLeft(ready, seen);
        var n :| n in ready && n !in seen;
        assert UntouchedAt(n, from.remote, from.mirror, remote, mirror);
        SameTrouble(from, Here(), n);
        ghost var r1, m1 := remote, mirror;
        o := In(n, mirrorNames, current);
        if o.Threw? {
          done, report := seen, current;
          return;
        }
        ProgressStep(from, seen, n, r1, m1, remote, mirror, current, o.report);
        current, seen := o.report, seen + {n};
      }
      o, done, report := Done(current), seen, current;
    }

    /** The second loop: the mirror's record names that the picked folder does not know. */
    method CopyOut(missing: set<string>, soFar: Report, ghost from: Start, ghost before: set<string>)
      returns (o: Outcome, ghost done: set<string>, ghost report: Report)
      requires Progress(from, before, remote, mirror, soFar)
      requires from.hash == hash && from.remoteRefuses == remoteRefuses && from.mirrorRefuses == mirrorRefuses
      requires forall n | n in missing :: n in mirror && n !in remote && n !in before
      modifies this`remote, this`downloaded
      ensures Grew(old(downloaded), downloaded, old(remote), remote)
      ensures forall n | n in remote :: n in old(remote) || n in missing
      ensures Progress(from, done, remote, mirror, report)
      ensures before <= done && forall n | n in done :: n in before || n in missing
      ensures match o
              case Done(r) => r == report && r.pending == soFar.pending && missing <= done
              case Threw => exists n :: n in missing && from.CannotCopy(n)
    {
      var current, todo := soFar, missing;
      done := before;
      while todo != {}
        invariant todo <= missing && before <= done
        invariant forall n | n in todo :: n !in done && n !in remote
        invariant forall n | n in missing && n !in todo :: n in done
        invariant forall n | n in done :: n in before || n in missing
        invariant current.pending == soFar.pending
        invariant Progress(from, done, remote, mirror, current)
        invariant Grew(old(downloaded), downloaded, old(remote), remote)
        invariant forall n | n in remote :: n in old(remote) || n in missing
        decreases todo
      {
        var n :| n in todo;
        assert UntouchedAt(n, from.remote, from.mirror, remote, mirror);
        ghost var r1 := remote;
        o := Out(n, current);
        if o.Threw? {
          report := current;
          return;
        }
        ProgressStep(from, done, n, r1, mirror, remote, mirror, current, o.report);
        current, todo, done := o.report, todo - {n}, done + {n};
      }
      o, report := Done(current), current;
    }

    /** Both loops, for a listing that accounts for every record name of the picked folder. */
    method CopyBoth(ready: set<string>, pending: set<string>)
      returns (o: Outcome, ghost done: set<string>, ghost report: Report)
      requires ready !! pending && forall n | n in ready :: n in remote && IsRecordName(n) && n in downloaded
      requires forall n | n in remote && IsRecordName(n) :: n in ready || n in pending
      modifies this`remote, this`mirror, this`downloaded
      ensures Grew(old(downloaded), downloaded, old(remote), remote)
      ensures forall n | n in remote && n !in old(remote) :: IsRecordName(n) && n !in pending
      ensures Progress(old(Here()), done, remote, mirror, report) && done !! pending
      ensures match o
              case Done(r) =>
                && r == report && r.pending == |pending|
                && forall n | IsRecordName(n) && (n in old(remote) || n in old(mirror)) :: n in done || n in pending
              case Threw => exists n :: n !in pending && old(Here()).CannotCopy(n)
    {
      ghost var from := Here();
      o, done, report := CopyIn(ready, |pending|);
      if o.Threw? {
        return;
      }
      var missing := set n | n in mirror && IsRecordName(n) && n !in ready && n !in pending;
      assert forall n | n in missing :: UntouchedAt(n, from.remote, from.mirror, remote, mirror);
      o, done, report := CopyOut(missing, o.report, from, done);
    }

    /**
     * One pass both ways. It goes through unless some name that is not pending cannot be
     * copied, and then joins every name
     * that is not pending; the report counts the files whose bytes changed. A pass that throws has
     * joined some names and left the others alone.
     */
    method Sync() returns (o: Outcome, ghost skipped: set<string>)
      modifies this`remote, this`mirror, this`downloaded, this`requested
      ensures o.Done? <==> forall n | old(Here()).CannotCopy(n) :: n in old(Pending())
      ensures Pass(hash, skipped, old(remote), old(mirror), remote, mirror)
      ensures old(Pending()) <= skipped
      ensures o.Done? ==>
                && skipped == old(Pending())
                && o.report == Report(|Changed(old(mirror), mirror)|, |Changed(old(remote), remote)|, |old(Pending())|)
      ensures requested == old(requested) + old(Pending())
      ensures Grew(old(downloaded), downloaded, old(remote), remote) && Pending() == old(Pending())
    {
      ghost var from := Here();
      ListingSplits(remote.Keys, downloaded);
      var ready, pending := ListRemote();
      ghost var done, report;
      o, done, report := CopyBoth(ready, pending);
      NewRecordsAreNotPending(from.remote.Keys, old(downloaded), remote.Keys - from.remote.Keys);
      assert remote.Keys == from.remote.Keys + (remote.Keys - from.remote.Keys);
      if o.Done? {
        skipped := pending;
        ProgressIsPass(from, done, skipped, remote, mirror, report);
      } else {
        skipped := PartialPass(from, done, pending, remote, mirror, report);
      }
    }

    /** Two passes with nothing new between them: if the first goes through so does the second, which copies and counts
      * nothing and finds the same names pending. */
    method SyncTwice() returns (first: Outcome, second: Outcome, ghost between: Start)
      modifies this`remote, this`mirror, this`downloaded, this`requested
      ensures first.Done? ==> second == Done(Report(0, 0, first.report.pending)) && Here() == between
    {
      ghost var from := Here();
      ghost var skipped, again;
      first, skipped := Sync();
      between := Here();
      second, again := Sync();
      if first.Done? {
        NothingLeftToCopy(from, between, skipped);
        SecondPassIdle(hash, skipped, from.remote, from.mirror, between.remote, between.mirror, remote, mirror);
      }
    }
  }

  /** A pass that copied all it had to leaves nothing that cannot be copied, but what it skipped. */
  lemma NothingLeftToCopy(from: Start, to: Start, skipped: set<string>)
    requires from.hash == to.hash && from.remoteRefuses == to.remoteRefuses && from.mirrorRefuses == to.mirrorRefuses
    requires Pass(from.hash, skipped, from.remote, from.mirror, to.remote, to.mirror)
    requires forall n | from.CannotCopy(n) :: n in skipped
    ensures forall n | to.CannotCopy(n) :: n in skipped
  {
    forall n | n !in skipped
      ensures to.CannotCopy(n) ==> from.CannotCopy(n)
    {
      assert JoinedAt(from.hash, n, from.remote, from.mirror, to.remote, to.mirror);
    }
  }

  lemma SameFolder(f: Folder, g: Folder)
    requires forall n :: SameAt(f, g, n)
    ensures f == g
  {
    assert forall n :: n in f.Keys ==> SameAt(f, g, n);
    assert forall n :: n in g.Keys ==> SameAt(f, g, n);
  }

  /** Doing the same pass again changes nothing: what the first one joined is joined. */
  lemma SecondPassIdle(hash: Hash, skipped: set<string>, r0: Folder, m0: Folder, r1: Folder, m1: Folder,
                       r2: Folder, m2: Folder)
    requires Pass(hash, skipped, r0, m0, r1, m1) && Pass(hash, skipped, r1, m1, r2, m2)
    ensures r2 == r1 && m2 == m1
    ensures Changed(r1, r2) == {} && Changed(m1, m2) == {}
  {
    forall n
      ensures SameAt(r1, r2, n) && SameAt(m1, m2, n)
    {
      if n !in skipped {
        assert JoinedAt(hash, n, r0, m0, r1, m1) && JoinedAt(hash, n, r1, m1, r2, m2);
      }
    }
    SameFolder(r1, r2);
    SameFolder(m1, m2);
  }
}
