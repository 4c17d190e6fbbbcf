/** First-fit packing under six limits at once (crates/revoot-core/src/partition.rs, lines 926-1066). */
module PartitionPacking {
  import opened Wrappers
  import opened Sorting
  import opened Words
  import opened ChangedPaths
  import opened PartitionInputs
  import Sequences

  datatype Packing = Packing(bins: seq<seq<UnitFile>>, omitted: seq<Omitted>, files: nat, bytes: nat, lowBytes: nat)

  function LowSignalLimit(l: Limits): u64 {
    var proportional := l.maxTotalBytes / LOW_SIGNAL_BUDGET_DIVISOR;
    if proportional < MAX_LOW_SIGNAL_BYTES then proportional else MAX_LOW_SIGNAL_BYTES
  }

  // ----- totals

  function Bytes(files: seq<UnitFile>): nat {
    if files == [] then 0 else Bytes(files[..|files| - 1]) + files[|files| - 1].bytes
  }

  function Anchors(files: seq<UnitFile>): nat {
    if files == [] then 0 else Anchors(files[..|files| - 1]) + |files[|files| - 1].anchors|
  }

  function LowShare(f: UnitFile): nat {
    if f.value.tier == Low then f.bytes else 0
  }

  function LowBytes(files: seq<UnitFile>): nat {
    if files == [] then 0 else LowBytes(files[..|files| - 1]) + LowShare(files[|files| - 1])
  }

  /** All packed files, unit by unit. */
  function Flatten<T>(bins: seq<seq<T>>): seq<T> {
    if bins == [] then [] else Flatten(bins[..|bins| - 1]) + bins[|bins| - 1]
  }

  lemma {:induction false} TotalsConcat(a: seq<UnitFile>, b: seq<UnitFile>)
    ensures Bytes(a + b) == Bytes(a) + Bytes(b)
    ensures Anchors(a + b) == Anchors(a) + Anchors(b)
    ensures LowBytes(a + b) == LowBytes(a) + LowBytes(b)
  {
    if b == [] {
      assert a + b == a;
    } else {
      var n := |b| - 1;
      assert (a + b)[..|a + b| - 1] == a + b[..n];
      TotalsConcat(a, b[..n]);
    }
  }

  lemma Singleton(f: UnitFile)
    ensures Bytes([f]) == f.bytes && Anchors([f]) == |f.anchors| && LowBytes([f]) == LowShare(f)
  {
    assert [f][..0] == [];
  }

  /** The totals do not depend on the order of the files. */
  lemma {:induction false} TotalsPermutation(a: seq<UnitFile>, b: seq<UnitFile>)
    requires multiset(a) == multiset(b)
    ensures Bytes(a) == Bytes(b) && Anchors(a) == Anchors(b) && LowBytes(a) == LowBytes(b) && |a| == |b|
  {
    SameElements(a, b);
    if a != [] {
      var i := Sequences.TakeOut(a, b);
      var l, r := b[..i], b[i + 1..];
      TotalsPermutation(a[1..], l + r);
      assert a == [a[0]] + a[1..];
      TotalsConcat([a[0]], a[1..]);
      TotalsConcat(l, r);
      TotalsConcat(l + [a[0]], r);
      TotalsConcat(l, [a[0]]);
    }
  }

  lemma {:induction false} FlattenConcat<T>(a: seq<seq<T>>, b: seq<seq<T>>)
    ensures Flatten(a + b) == Flatten(a) + Flatten(b)
  {
    if b == [] {
      assert a + b == a;
    } else {
      var n := |b| - 1;
      assert (a + b)[..|a + b| - 1] == a + b[..n];
      FlattenConcat(a, b[..n]);
    }
  }

  lemma FlattenSingle<T>(s: seq<T>)
    ensures Flatten([s]) == s
  {
    assert [s][..0] == [];
  }

  lemma {:induction false} FlattenSplit<T>(l: seq<seq<T>>, bin: seq<T>, r: seq<seq<T>>)
    ensures Flatten(l + [bin] + r) == Flatten(l) + bin + Flatten(r)
  {
    FlattenConcat(l + [bin], r);
    FlattenConcat(l, [bin]);
    FlattenSingle(bin);
  }

  lemma FlattenAppend<T>(bins: seq<seq<T>>, i: nat, x: T)
    requires i < |bins|
    ensures multiset(Flatten(bins[i := bins[i] + [x]])) == multiset(Flatten(bins)) + multiset{x}
  {
    var l, r := bins[..i], bins[i + 1..];
    assert bins == l + [bins[i]] + r;
    assert bins[i := bins[i] + [x]] == l + [bins[i] + [x]] + r;
    FlattenSplit(l, bins[i], r);
    FlattenSplit(l, bins[i] + [x], r);
  }

  // ----- one packing step

  predicate Fits(bin: seq<UnitFile>, f: UnitFile, l: Limits) {
    && |bin| < l.maxFilesPerUnit
    && Bytes(bin) + f.bytes <= l.maxBytesPerUnit
    && Anchors(bin) + |f.anchors| <= l.maxAnchorsPerUnit
  }

  /** `file_capacity_reason`. */
  function CapacityReason(f: UnitFile, l: Limits, files: nat, bytes: nat, lowBytes: nat): Option<OmissionReason> {
    if files >= l.maxFiles then Some(FileBudget)
    else if f.value.tier == Low && lowBytes + f.bytes > LowSignalLimit(l) then Some(LowSignalBudget)
    else if bytes + f.bytes > l.maxTotalBytes then Some(TotalByteBudget)
    else if f.bytes > l.maxBytesPerUnit then Some(WorkUnitByteCapacity)
    else if |f.anchors| > l.maxAnchorsPerUnit then Some(WorkUnitAnchorCapacity)
    else None
  }

  /** The first unit with room, or the number of units. */
  function FirstFit(bins: seq<seq<UnitFile>>, f: UnitFile, l: Limits): (i: nat)
    ensures i <= |bins|
    ensures i < |bins| ==> Fits(bins[i], f, l)
    ensures forall k :: 0 <= k < i ==> !Fits(bins[k], f, l)
  {
    if bins == [] || Fits(bins[0], f, l) then 0 else 1 + FirstFit(bins[1..], f, l)
  }

  /** Why no unit takes the file. */
  function FullReason(bins: seq<seq<UnitFile>>, f: UnitFile, l: Limits): OmissionReason {
    if forall i :: 0 <= i < |bins| ==> |bins[i]| >= l.maxFilesPerUnit then WorkUnitFileCapacity
    else if forall i :: 0 <= i < |bins| ==> Bytes(bins[i]) + f.bytes > l.maxBytesPerUnit then WorkUnitByteCapacity
    else if forall i :: 0 <= i < |bins| ==> Anchors(bins[i]) + |f.anchors| > l.maxAnchorsPerUnit then WorkUnitAnchorCapacity
    else WorkUnitBudget
  }

  function Omit(p: Packing, f: UnitFile, reason: OmissionReason): Packing {
    p.(omitted := p.omitted + [Omitted(f.path, reason)])
  }

  function Place(p: Packing, f: UnitFile, destination: nat): Packing
    requires destination <= |p.bins|
  {
    Packing(if destination < |p.bins| then p.bins[destination := p.bins[destination] + [f]] else p.bins + [[f]],
            p.omitted, p.files + 1, p.bytes + f.bytes, p.lowBytes + LowShare(f))
  }

  /** One round of `pack_files`. */
  function PackStep(p: Packing, f: UnitFile, l: Limits): Packing {
    var reason := CapacityReason(f, l, p.files, p.bytes, p.lowBytes);
    if reason.Some? then Omit(p, f, reason.value)
    else
      var destination := FirstFit(p.bins, f, l);
      if destination < |p.bins| || |p.bins| < l.maxWorkUnits then Place(p, f, destination)
      else Omit(p, f, FullReason(p.bins, f, l))
  }

  function PackAll(files: seq<UnitFile>, omitted: seq<Omitted>, l: Limits): Packing {
    if files == [] then Packing([], omitted, 0, 0, 0)
    else PackStep(PackAll(files[..|files| - 1], omitted, l), files[|files| - 1], l)
  }

  // ----- what packing keeps

  ghost predicate WithinUnit(bin: seq<UnitFile>, l: Limits) {
    && 0 < |bin| <= l.maxFilesPerUnit
    && Bytes(bin) <= l.maxBytesPerUnit
    && Anchors(bin) <= l.maxAnchorsPerUnit
  }

  /** All six limits hold and the running totals are the totals of the packed files. */
  ghost predicate WithinLimits(p: Packing, l: Limits) {
    && |p.bins| <= l.maxWorkUnits
    && (forall i :: 0 <= i < |p.bins| ==> WithinUnit(p.bins[i], l))
    && p.files == |Flatten(p.bins)| <= l.maxFiles
    && p.bytes == Bytes(Flatten(p.bins)) <= l.maxTotalBytes
    && p.lowBytes == LowBytes(Flatten(p.bins)) <= LowSignalLimit(l)
  }

  /** The file could still be added, to some unit or to a fresh one, within every limit. */
  ghost predicate Room(p: Packing, f: UnitFile, l: Limits) {
    && p.files + 1 <= l.maxFiles
    && p.bytes + f.bytes <= l.maxTotalBytes
    && (f.value.tier == Low ==> p.lowBytes + f.bytes <= LowSignalLimit(l))
    && ((exists i :: 0 <= i < |p.bins| && Fits(p.bins[i], f, l)) || (|p.bins| < l.maxWorkUnits && Fits([], f, l)))
  }

  /** A file is packed exactly when there is room for it. */
  lemma {:induction false} PackedIffRoom(p: Packing, f: UnitFile, l: Limits)
    requires l.Valid()
    ensures var next := PackStep(p, f, l);
      if Room(p, f, l) then next == Place(p, f, FirstFit(p.bins, f, l))
      else exists reason :: next == Omit(p, f, reason)
  {
    var destination := FirstFit(p.bins, f, l);
    var reason := CapacityReason(f, l, p.files, p.bytes, p.lowBytes);
    if reason.Some? {
      assert PackStep(p, f, l) == Omit(p, f, reason.value);
    } else if !(destination < |p.bins| || |p.bins| < l.maxWorkUnits) {
      assert PackStep(p, f, l) == Omit(p, f, FullReason(p.bins, f, l));
    }
  }

  lemma PlacedFlatten(p: Packing, f: UnitFile, destination: nat)
    requires destination <= |p.bins|
    ensures multiset(Flatten(Place(p, f, destination).bins)) == multiset(Flatten(p.bins)) + multiset{f}
  {
    if destination < |p.bins| {
      FlattenAppend(p.bins, destination, f);
    } else {
      FlattenConcat(p.bins, [[f]]);
      FlattenSingle([f]);
    }
  }

  lemma PlacedTotals(p: Packing, f: UnitFile, destination: nat)
    requires destination <= |p.bins|
    ensures var files := Flatten(Place(p, f, destination).bins);
      && |files| == |Flatten(p.bins)| + 1
      && Bytes(files) == Bytes(Flatten(p.bins)) + f.bytes
      && LowBytes(files) == LowBytes(Flatten(p.bins)) + LowShare(f)
  {
    PlacedFlatten(p, f, destination);
    TotalsPermutation(Flatten(Place(p, f, destination).bins), Flatten(p.bins) + [f]);
    TotalsConcat(Flatten(p.bins), [f]);
    Singleton(f);
  }

  lemma ExtendedUnit(bin: seq<UnitFile>, f: UnitFile, l: Limits)
    requires Fits(bin, f, l)
    ensures WithinUnit(bin + [f], l)
  {
    TotalsConcat(bin, [f]);
    Singleton(f);
  }

  lemma {:induction false} PlaceWithinLimits(p: Packing, f: UnitFile, l: Limits)
    requires l.Valid() && WithinLimits(p, l) && Room(p, f, l)
    ensures WithinLimits(Place(p, f, FirstFit(p.bins, f, l)), l)
  {
    var destination := FirstFit(p.bins, f, l);
    PlacedTotals(p, f, destination);
    if destination < |p.bins| {
      ExtendedUnit(p.bins[destination], f, l);
    } else {
      ExtendedUnit([], f, l);
      assert [] + [f] == [f];
    }
  }

  /** Room never comes back. */
  lemma RoomShrinks(p: Packing, f: UnitFile, g: UnitFile, l: Limits)
    requires l.Valid() && !Room(p, f, l)
    ensures !Room(PackStep(p, g, l), f, l)
  {
    PackedIffRoom(p, g, l);
    if Room(p, g, l) {
      var destination := FirstFit(p.bins, g, l);
      var next := Place(p, g, destination);
      Singleton(g);
      if destination < |p.bins| {
        TotalsConcat(p.bins[destination], [g]);
      }
      forall i | 0 <= i < |next.bins| && Fits(next.bins[i], f, l)
        ensures (exists k :: 0 <= k < |p.bins| && Fits(p.bins[k], f, l)) || (|p.bins| < l.maxWorkUnits && Fits([], f, l))
      {
        if i < |p.bins| {
          assert Fits(p.bins[i], f, l);
        }
      }
    }
  }

  function PathOf(f: UnitFile): ChangedPath {
    f.path
  }

  function OmittedPath(o: Omitted): ChangedPath {
    o.path
  }

  /** Every limit holds after any number of files. */
  lemma {:induction false} PackingWithinLimits(files: seq<UnitFile>, omitted: seq<Omitted>, l: Limits)
    requires l.Valid()
    ensures WithinLimits(PackAll(files, omitted, l), l)
  {
    if files != [] {
      var n := |files| - 1;
      PackingWithinLimits(files[..n], omitted, l);
      var p := PackAll(files[..n], omitted, l);
      PackedIffRoom(p, files[n], l);
      if Room(p, files[n], l) {
        PlaceWithinLimits(p, files[n], l);
      }
    }
  }

  /** The paths a packing accounts for. */
  function Accounted(p: Packing): multiset<ChangedPath> {
    multiset(Sequences.Map(PathOf, Flatten(p.bins))) + multiset(Sequences.Map(OmittedPath, p.omitted))
  }

  lemma PlacedAccounts(p: Packing, f: UnitFile, destination: nat)
    requires destination <= |p.bins|
    ensures Accounted(Place(p, f, destination)) == Accounted(p) + multiset{f.path}
  {
    var after := Place(p, f, destination);
    PlacedFlatten(p, f, destination);
    Sequences.MapPermutation(PathOf, Flatten(after.bins), Flatten(p.bins) + [f]);
    Sequences.MapConcat(PathOf, Flatten(p.bins), [f]);
    assert Sequences.Map(PathOf, [f]) == [f.path];
  }

  lemma OmittedAccounts(p: Packing, f: UnitFile, reason: OmissionReason)
    ensures Accounted(Omit(p, f, reason)) == Accounted(p) + multiset{f.path}
  {
    var o := Omitted(f.path, reason);
    Sequences.MapConcat(OmittedPath, p.omitted, [o]);
    assert Sequences.Map(OmittedPath, [o]) == [f.path];
  }

  lemma StepAccounts(p: Packing, f: UnitFile, l: Limits)
    requires l.Valid()
    ensures Accounted(PackStep(p, f, l)) == Accounted(p) + multiset{f.path}
  {
    PackedIffRoom(p, f, l);
    if Room(p, f, l) {
      PlacedAccounts(p, f, FirstFit(p.bins, f, l));
    } else {
      var reason :| PackStep(p, f, l) == Omit(p, f, reason);
      OmittedAccounts(p, f, reason);
    }
  }

  /** A step packs the file or leaves the units alone. */
  lemma StepFlatten(p: Packing, f: UnitFile, l: Limits)
    requires l.Valid()
    ensures multiset(Flatten(PackStep(p, f, l).bins))
         == multiset(Flatten(p.bins)) + if Room(p, f, l) then multiset{f} else multiset{}
  {
    PackedIffRoom(p, f, l);
    if Room(p, f, l) {
      PlacedFlatten(p, f, FirstFit(p.bins, f, l));
    }
  }

  lemma StepMembers(p: Packing, f: UnitFile, l: Limits, x: UnitFile)
    requires l.Valid()
    ensures x in Flatten(PackStep(p, f, l).bins) <==> x in Flatten(p.bins) || (x == f && Room(p, f, l))
  {
    StepFlatten(p, f, l);
    assert x in Flatten(PackStep(p, f, l).bins) <==> x in multiset(Flatten(PackStep(p, f, l).bins));
    assert x in Flatten(p.bins) <==> x in multiset(Flatten(p.bins));
  }

  /** Conservation: packed and omitted paths are together exactly the paths that came in. */
  lemma {:induction false} PackingConserves(files: seq<UnitFile>, omitted: seq<Omitted>, l: Limits)
    requires l.Valid()
    ensures Accounted(PackAll(files, omitted, l))
         == multiset(Sequences.Map(PathOf, files)) + multiset(Sequences.Map(OmittedPath, omitted))
  {
    if files == [] {
      var p := PackAll(files, omitted, l);
      assert Flatten(p.bins) == [] && Sequences.Map(PathOf, []) == [];
    } else {
      var n := |files| - 1;
      var rest, last := files[..n], files[n];
      PackingConserves(rest, omitted, l);
      StepAccounts(PackAll(rest, omitted, l), last, l);
      Sequences.MapSnoc(PathOf, rest, last);
      assert files == rest + [last];
      assert PackAll(files, omitted, l) == PackStep(PackAll(rest, omitted, l), last, l);
    }
  }

  /** Only given files are packed, each at most as often as it was given. */
  lemma {:induction false} PackingSelects(files: seq<UnitFile>, omitted: seq<Omitted>, l: Limits)
    requires l.Valid()
    ensures multiset(Flatten(PackAll(files, omitted, l).bins)) <= multiset(files)
  {
    if files != [] {
      var n := |files| - 1;
      var before := PackAll(files[..n], omitted, l);
      PackingSelects(files[..n], omitted, l);
      StepFlatten(before, files[n], l);
      assert files == files[..n] + [files[n]];
      assert multiset(files) == multiset(files[..n]) + multiset{files[n]};
      assert PackAll(files, omitted, l) == PackStep(before, files[n], l);
    }
  }

  /** Maximality: a file that was not packed could not be added to any unit of the finished packing,
      nor to a fresh one. */
  lemma {:induction false} PackingIsMaximal(files: seq<UnitFile>, omitted: seq<Omitted>, l: Limits, f: UnitFile)
    requires l.Valid() && f in files
    ensures var p := PackAll(files, omitted, l);
      f in Flatten(p.bins) || !Room(p, f, l)
  {
    var n := |files| - 1;
    var before := PackAll(files[..n], omitted, l);
    StepMembers(before, files[n], l, f);
    if f in files[..n] {
      PackingIsMaximal(files[..n], omitted, l, f);
    } else {
      assert f == files[n];
    }
    if !Room(before, f, l) {
      RoomShrinks(before, f, files[n], l);
    }
  }

  /** One round of the loop, searching for the first unit with room. */
  method PackOne(bins: seq<seq<UnitFile>>, left: seq<Omitted>, admitted: u32, bytes: u64, lowBytes: u64, f: UnitFile, l: Limits)
    returns (bins': seq<seq<UnitFile>>, left': seq<Omitted>, admitted': u32, bytes': u64, lowBytes': u64)
    requires l.Valid()
    ensures Packing(bins', left', admitted', bytes', lowBytes') == PackStep(Packing(bins, left, admitted, bytes, lowBytes), f, l)
  {
    bins', left', admitted', bytes', lowBytes' := bins, left, admitted, bytes, lowBytes;
    var reason := CapacityReason(f, l, admitted, bytes, lowBytes);
    if reason.Some? {
      left' := left + [Omitted(f.path, reason.value)];
      return;
    }
    var destination := 0;
    while destination < |bins| && !Fits(bins[destination], f, l)
      invariant destination <= FirstFit(bins, f, l)
      invariant forall k :: 0 <= k < destination ==> !Fits(bins[k], f, l)
    {
      destination := destination + 1;
    }
    if destination == |bins| && |bins| >= l.maxWorkUnits {
      left' := left + [Omitted(f.path, FullReason(bins, f, l))];
      return;
    }
    if destination == |bins| {
      bins' := bins + [[]];
    }
    admitted' := admitted + 1;
    bytes' := bytes + f.bytes;
    if f.value.tier == Low {
      lowBytes' := lowBytes + f.bytes;
    }
    assert destination == FirstFit(bins, f, l);
    assert [] + [f] == [f];
    assert (bins + [[]])[|bins| := [f]] == bins + [[f]];
    bins' := bins'[destination := bins'[destination] + [f]];
  }

  /** `pack_files`. The running totals never leave their machine types. */
  method PackFiles(files: seq<UnitFile>, omitted: seq<Omitted>, l: Limits) returns (p: Packing)
    requires l.Valid()
    ensures p == PackAll(files, omitted, l) && WithinLimits(p, l)
  {
    var bins: seq<seq<UnitFile>> := [];
    var left := omitted;
    var admitted: u32, bytes: u64, lowBytes: u64 := 0, 0, 0;
    for i := 0 to |files|
      invariant Packing(bins, left, admitted, bytes, lowBytes) == PackAll(files[..i], omitted, l)
    {
      assert files[..i + 1][..i] == files[..i];
      bins, left, admitted, bytes, lowBytes := PackOne(bins, left, admitted, bytes, lowBytes, files[i], l);
    }
    assert files[..|files|] == files;
    PackingWithinLimits(files, omitted, l);
    p := Packing(bins, left, admitted, bytes, lowBytes);
  }
}
