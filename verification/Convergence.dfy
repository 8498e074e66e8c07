/**
 * Any number of devices, each with its own mirror, sharing one picked folder.
 *
 * A run is any sequence of passes, on any devices and in any order, each skipping what it could
 * not see or had to leave (`ExchangeMirror.Sync`), between which a device's shared vault may add
 * records to its own mirror.
 */
module Convergence {
  import opened Basics
  import opened RecordEnvelope
  import opened ExchangeMirror

  type Device = nat

  datatype World = World(folder: Folder, mirrors: map<Device, Folder>) {
    ghost predicate Has(side: Side) {
      side.Mirror? ==> side.device in mirrors
    }

    ghost function At(side: Side): Folder
      requires Has(side)
    {
      match side
      case Shared => folder
      case Mirror(d) => mirrors[d]
    }

    ghost predicate ValidAt(hash: Hash, side: Side, n: string) {
      Has(side) && Holds(hash, At(side), n)
    }
  }

  datatype Side = Shared | Mirror(device: Device)

  datatype Step =
    | Sync(device: Device, skipped: set<string>)
    | Add(device: Device, name: string, data: seq<Byte>)

  ghost predicate Next(hash: Hash, w: World, step: Step, w': World) {
    && w'.mirrors.Keys == w.mirrors.Keys
    && step.device in w.mirrors
    && (forall d | d in w.mirrors && d != step.device :: w'.mirrors[d] == w.mirrors[d])
    && var m, m' := w.mirrors[step.device], w'.mirrors[step.device];
    match step
    case Sync(_, skipped) => Pass(hash, skipped, w.folder, m, w'.folder, m')
    case Add(_, n, data) =>
      w'.folder == w.folder && ValidRecord(hash, n, data) && !Holds(hash, m, n) && m' == m[n := Readable(data)]
  }

  ghost predicate Run(hash: Hash, worlds: seq<World>, steps: seq<Step>) {
    && |worlds| == |steps| + 1
    && forall i :: 0 <= i < |steps| ==> Next(hash, worlds[i], steps[i], worlds[i + 1])
  }

  // ---- Safety, over any run ----

  /** The side still has the very file it had. */
  ghost predicate Keeps(w: World, w': World, side: Side, n: string) {
    w.Has(side) && w'.Has(side) && n in w.At(side) && n in w'.At(side) && w'.At(side)[n] == w.At(side)[n]
  }

  /** What a pass does to `n`, spelled out for that name. */
  lemma PassAt(hash: Hash, w: World, step: Step, w': World, n: string)
    requires Next(hash, w, step, w') && step.Sync?
    ensures var m, m' := w.mirrors[step.device], w'.mirrors[step.device];
            || UntouchedAt(n, w.folder, m, w'.folder, m')
            || JoinedAt(hash, n, w.folder, m, w'.folder, m')
  {
  }

  lemma StepKeeps(hash: Hash, w: World, step: Step, w': World, side: Side, n: string)
    requires Next(hash, w, step, w') && w.ValidAt(hash, side, n)
    ensures Keeps(w, w', side, n)
  {
    if step.Sync? {
      PassAt(hash, w, step, w', n);
    }
  }

  /** A valid copy, on any side, is there unaltered for the rest of the run. */
  lemma {:induction false} NothingLost(hash: Hash, worlds: seq<World>, steps: seq<Step>, i: nat, j: nat,
                                       side: Side, n: string)
    requires Run(hash, worlds, steps) && i <= j < |worlds|
    requires worlds[i].ValidAt(hash, side, n)
    ensures Keeps(worlds[i], worlds[j], side, n) && worlds[j].ValidAt(hash, side, n)
    decreases j
  {
    if i < j {
      NothingLost(hash, worlds, steps, i, j - 1, side, n);
      assert Next(hash, worlds[j - 1], steps[j - 1], worlds[j]);
      StepKeeps(hash, worlds[j - 1], steps[j - 1], worlds[j], side, n);
    }
  }

  /** A valid copy after a step was a valid copy before it, or is what the step added. */
  lemma StepForgesNothing(hash: Hash, w: World, step: Step, w': World, side: Side, n: string) returns (source: Side)
    requires Next(hash, w, step, w') && w'.ValidAt(hash, side, n)
    ensures || (w.ValidAt(hash, source, n) && w.At(source)[n] == w'.At(side)[n])
            || (step.Add? && step.name == n && Readable(step.data) == w'.At(side)[n])
  {
    source := side;
    if step.Sync? {
      PassAt(hash, w, step, w', n);
      if !w.ValidAt(hash, side, n) {
        source := if side.Shared? then Mirror(step.device) else Shared;
      }
    } else if side == Mirror(step.device) && n != step.name {
      assert w'.At(side)[n] == w.At(side)[n];
    }
  }

  /** The file `f` under `n` is a valid copy that a side started with or a vault added before step `j`. */
  ghost predicate Origin(hash: Hash, worlds: seq<World>, steps: seq<Step>, j: nat, n: string, f: File)
    requires 0 < |worlds| && j <= |steps|
  {
    || (exists side :: worlds[0].ValidAt(hash, side, n) && worlds[0].At(side)[n] == f)
    || (exists k :: 0 <= k < j && steps[k].Add? && steps[k].name == n && Readable(steps[k].data) == f)
  }

  lemma OriginStays(hash: Hash, worlds: seq<World>, steps: seq<Step>, j: nat, n: string, f: File)
    requires 0 < |worlds| && 0 < j <= |steps| && Origin(hash, worlds, steps, j - 1, n, f)
    ensures Origin(hash, worlds, steps, j, n, f)
  {
  }

  /** A valid copy has an origin, or was one before the last step. */
  lemma OriginBefore(hash: Hash, worlds: seq<World>, steps: seq<Step>, j: nat, side: Side, n: string)
    returns (source: Side)
    requires Run(hash, worlds, steps) && 0 < j < |worlds| && worlds[j].ValidAt(hash, side, n)
    ensures || Origin(hash, worlds, steps, j, n, worlds[j].At(side)[n])
            || (worlds[j - 1].ValidAt(hash, source, n) && worlds[j - 1].At(source)[n] == worlds[j].At(side)[n])
  {
    var w, step, w' := worlds[j - 1], steps[j - 1], worlds[j];
    assert Next(hash, w, step, w');
    source := StepForgesNothing(hash, w, step, w', side, n);
    if step.Add? && step.name == n && Readable(step.data) == w'.At(side)[n] {
      assert steps[j - 1] == step;
    }
  }

  /** Every valid copy anywhere has an origin: passes copy records, and make up none. */
  lemma {:induction false} NothingForged(hash: Hash, worlds: seq<World>, steps: seq<Step>, j: nat,
                                         side: Side, n: string)
    requires Run(hash, worlds, steps) && j < |worlds|
    requires worlds[j].ValidAt(hash, side, n)
    ensures Origin(hash, worlds, steps, j, n, worlds[j].At(side)[n])
    decreases j
  {
    if j > 0 {
      var source := OriginBefore(hash, worlds, steps, j, side, n);
      if !Origin(hash, worlds, steps, j, n, worlds[j].At(side)[n]) {
        NothingForged(hash, worlds, steps, j - 1, source, n);
        OriginStays(hash, worlds, steps, j, n, worlds[j].At(side)[n]);
      }
    } else {
      assert worlds[0].ValidAt(hash, side, n);
    }
  }

  // ---- Convergence ----

  ghost predicate OnlySyncs(steps: seq<Step>) {
    forall i :: 0 <= i < |steps| ==> steps[i].Sync?
  }

  /** Some pass on `d` among `steps[from..to]` had nothing pending and did not fail. */
  ghost predicate CleanPass(steps: seq<Step>, from: nat, to: nat, d: Device)
    requires from <= to <= |steps|
  {
    exists i :: from <= i < to && steps[i] == Sync(d, {})
  }

  ghost predicate ValidSomewhere(hash: Hash, w: World, n: string) {
    exists side :: w.ValidAt(hash, side, n)
  }

  /** Both folders have the file `f` under `n`, on every side. */
  ghost predicate Everywhere(w: World, n: string, f: File) {
    forall side | w.Has(side) :: n in w.At(side) && w.At(side)[n] == f
  }

  ghost predicate Unchanged(w: World, w': World, n: string) {
    w'.mirrors.Keys == w.mirrors.Keys && forall side | w.Has(side) :: SameAt(w.At(side), w'.At(side), n)
  }

  lemma {:induction false} SameDevices(hash: Hash, worlds: seq<World>, steps: seq<Step>, j: nat)
    requires Run(hash, worlds, steps) && j < |worlds|
    ensures worlds[j].mirrors.Keys == worlds[0].mirrors.Keys
  {
    if j > 0 {
      SameDevices(hash, worlds, steps, j - 1);
      assert Next(hash, worlds[j - 1], steps[j - 1], worlds[j]);
    }
  }

  lemma PassLeavesInvalid(hash: Hash, w: World, step: Step, w': World, n: string)
    requires Next(hash, w, step, w') && step.Sync? && !ValidSomewhere(hash, w, n)
    ensures Unchanged(w, w', n)
  {
    assert !w.ValidAt(hash, Shared, n) && !w.ValidAt(hash, Mirror(step.device), n);
    PassAt(hash, w, step, w', n);
    forall side | w.Has(side)
      ensures SameAt(w.At(side), w'.At(side), n)
    {
    }
  }

  lemma StillInvalid(hash: Hash, w: World, w': World, n: string)
    requires Unchanged(w, w', n) && !ValidSomewhere(hash, w, n)
    ensures !ValidSomewhere(hash, w', n)
  {
    forall side
      ensures !w'.ValidAt(hash, side, n)
    {
      assert !w.ValidAt(hash, side, n);
    }
  }

  lemma UnchangedThen(w: World, w': World, w'': World, n: string)
    requires Unchanged(w, w', n) && Unchanged(w', w'', n)
    ensures Unchanged(w, w'', n)
  {
    forall side | w.Has(side)
      ensures SameAt(w.At(side), w''.At(side), n)
    {
      assert w'.Has(side);
    }
  }

  /** Passes do not touch a name that no side has a valid copy of. */
  lemma {:induction false} InvalidUntouched(hash: Hash, worlds: seq<World>, steps: seq<Step>, j: nat, n: string)
    requires Run(hash, worlds, steps) && OnlySyncs(steps) && j < |worlds|
    requires !ValidSomewhere(hash, worlds[0], n)
    ensures Unchanged(worlds[0], worlds[j], n)
  {
    if j > 0 {
      var w, step, w' := worlds[j - 1], steps[j - 1], worlds[j];
      InvalidUntouched(hash, worlds, steps, j - 1, n);
      assert Next(hash, w, step, w');
      StillInvalid(hash, worlds[0], w, n);
      PassLeavesInvalid(hash, w, step, w', n);
      UnchangedThen(worlds[0], w, w', n);
    }
  }

  /** A clean pass on `d` in the stretch brings what its mirror had into the picked folder, for good. */
  lemma MirrorReachesFolder(hash: Hash, worlds: seq<World>, steps: seq<Step>, from: nat, to: nat,
                            d: Device, n: string)
    requires Run(hash, worlds, steps) && from <= to <= |steps| && CleanPass(steps, from, to, d)
    requires worlds[from].ValidAt(hash, Mirror(d), n)
    ensures worlds[to].ValidAt(hash, Shared, n)
  {
    var i :| from <= i < to && steps[i] == Sync(d, {});
    NothingLost(hash, worlds, steps, from, i, Mirror(d), n);
    assert Next(hash, worlds[i], steps[i], worlds[i + 1]);
    assert JoinedAt(hash, n, worlds[i].folder, worlds[i].mirrors[d], worlds[i + 1].folder, worlds[i + 1].mirrors[d]);
    assert worlds[i + 1].ValidAt(hash, Shared, n);
    NothingLost(hash, worlds, steps, i + 1, to, Shared, n);
  }

  /** A clean pass on `d` in the stretch brings what the picked folder had into its mirror, for good. */
  lemma FolderReachesMirror(hash: Hash, worlds: seq<World>, steps: seq<Step>, from: nat, to: nat,
                            d: Device, n: string)
    requires Run(hash, worlds, steps) && from <= to <= |steps| && CleanPass(steps, from, to, d)
    requires worlds[from].ValidAt(hash, Shared, n)
    ensures worlds[to].ValidAt(hash, Mirror(d), n)
  {
    var i :| from <= i < to && steps[i] == Sync(d, {});
    NothingLost(hash, worlds, steps, from, i, Shared, n);
    assert Next(hash, worlds[i], steps[i], worlds[i + 1]);
    assert JoinedAt(hash, n, worlds[i].folder, worlds[i].mirrors[d], worlds[i + 1].folder, worlds[i + 1].mirrors[d]);
    assert worlds[i + 1].ValidAt(hash, Mirror(d), n);
    NothingLost(hash, worlds, steps, i + 1, to, Mirror(d), n);
  }

  /** The hash does not collide on the valid copies of `n` that the sides of `w` have. */
  ghost predicate TellsCopiesApart(hash: Hash, w: World, n: string) {
    forall a, b | w.ValidAt(hash, a, n) && w.ValidAt(hash, b, n) ::
      TellsApart(hash, w.At(a)[n].data, w.At(b)[n].data)
  }

  /** Without additions, every valid copy is one that some side started with. */
  lemma StartedWith(hash: Hash, worlds: seq<World>, steps: seq<Step>, j: nat, side: Side, n: string)
    returns (source: Side)
    requires Run(hash, worlds, steps) && OnlySyncs(steps) && j < |worlds| && worlds[j].ValidAt(hash, side, n)
    ensures worlds[0].ValidAt(hash, source, n) && worlds[0].At(source)[n] == worlds[j].At(side)[n]
  {
    NothingForged(hash, worlds, steps, j, side, n);
    source :| worlds[0].ValidAt(hash, source, n) && worlds[0].At(source)[n] == worlds[j].At(side)[n];
  }

  /**
   * Once every device has had a clean pass and then another one, in any order and among any other
   * passes, the picked folder and every mirror hold exactly the union of the valid records any of
   * them started with: each such record with the same bytes on every side, and everything else as
   * it was.
   */
  lemma Converges(hash: Hash, worlds: seq<World>, steps: seq<Step>, middle: nat, n: string)
    requires Run(hash, worlds, steps) && OnlySyncs(steps) && middle <= |steps|
    requires TellsCopiesApart(hash, worlds[0], n)
    requires forall d | d in worlds[0].mirrors ::
               CleanPass(steps, 0, middle, d) && CleanPass(steps, middle, |steps|, d)
    ensures var first, last := worlds[0], worlds[|steps|];
            if ValidSomewhere(hash, first, n)
            then exists side :: first.ValidAt(hash, side, n) && Everywhere(last, n, first.At(side)[n])
            else Unchanged(first, last, n)
  {
    var first, last := worlds[0], worlds[|steps|];
    if ValidSomewhere(hash, first, n) {
      var side :| first.ValidAt(hash, side, n);
      NothingLost(hash, worlds, steps, 0, |steps|, side, n);
      if side.Mirror? {
        MirrorReachesFolder(hash, worlds, steps, 0, middle, side.device, n);
      } else {
        NothingLost(hash, worlds, steps, 0, middle, Shared, n);
      }
      NothingLost(hash, worlds, steps, middle, |steps|, Shared, n);
      SameDevices(hash, worlds, steps, |steps|);
      forall s | last.Has(s)
        ensures n in last.At(s) && last.At(s)[n] == first.At(side)[n]
      {
        if s.Mirror? {
          FolderReachesMirror(hash, worlds, steps, middle, |steps|, s.device, n);
        }
        var source := StartedWith(hash, worlds, steps, |steps|, s, n);
        ValidBytesUnique(hash, n, first.At(source)[n].data, first.At(side)[n].data);
      }
    } else {
      InvalidUntouched(hash, worlds, steps, |steps|, n);
    }
  }
}
