// Crash-tolerant file replacement, as file-system steps with a crash possible between any two.
module FileSteps {

  type Byte = bv8
  type Name = string
  type Disk = map<Name, seq<Byte>>

  // What survives a crash: the files, and the room left for more bytes.
  datatype Store = Store(disk: Disk, free: nat)

  // Which file-system calls succeed; the code has no say in that.
  datatype Luck = Luck(openTmp: bool, readback: bool, removeOld: bool, rename: bool,
                       openSource: bool, openTarget: bool, removeSource: bool)

  const FORTUNE := Luck(true, true, true, true, true, true, true)

  // renameFile is one atomic call on ESP32 and copy-then-remove elsewhere; on nRF52 opening an
  // existing file for writing also keeps its bytes and goes on behind them.
  datatype Platform = AtomicRename | CopyThenRemove | CopyAndAppend

  function Lookup(d: Disk, name: Name): seq<seq<Byte>> {
    if name in d then [d[name]] else []
  }

  function Size(st: Store, name: Name): nat {
    if name in st.disk then |st.disk[name]| else 0
  }

  function Tmp(name: Name): Name {
    name + ".tmp"
  }

  // ---- Primitive file-system calls ---------------------------------------------------------

  function Remove(st: Store, name: Name): Store {
    Store(st.disk - {name}, st.free + Size(st, name))
  }

  // A new or emptied file.
  function Create(st: Store, name: Name): Store {
    Store(st.disk[name := []], st.free + Size(st, name))
  }

  // Opening for writing.
  function Open(st: Store, name: Name, platform: Platform): Store {
    if platform == CopyAndAppend && name in st.disk then st else Create(st, name)
  }

  // The medium keeps as many bytes as it has room for.
  function Append(st: Store, name: Name, kept: seq<Byte>): Store
    requires name in st.disk
  {
    var n := if |kept| <= st.free then |kept| else st.free;
    Store(st.disk[name := st.disk[name] + kept[..n]], st.free - n)
  }

  function Rename(st: Store, from: Name, to: Name): Store
    requires from in st.disk
  {
    Store((st.disk - {from})[to := st.disk[from]], st.free + if to == from then 0 else Size(st, to))
  }

  // ---- XOR hash ------------------------------------------------------------------------------

  function XorAll(s: seq<Byte>): Byte {
    if s == [] then 0 else XorAll(s[..|s| - 1]) ^ s[|s| - 1]
  }

  lemma XorAssociates(x: Byte, a: Byte, b: Byte)
    ensures (x ^ a) ^ b == x ^ (a ^ b)
  {
  }

  lemma {:induction false} XorAllAppend(s: seq<Byte>, t: seq<Byte>)
    ensures XorAll(s + t) == XorAll(s) ^ XorAll(t)
  {
    if t == [] {
      assert s + t == s;
      assert XorAll(s) ^ 0 == XorAll(s);
    } else {
      var n := |t| - 1;
      assert (s + t)[..|s + t| - 1] == s + t[..n];
      XorAllAppend(s, t[..n]);
      XorAssociates(XorAll(s), XorAll(t[..n]), t[n]);
    }
  }

  ghost predicate DifferOnlyAt(s: seq<Byte>, t: seq<Byte>, i: nat) {
    && i < |s| == |t| && s[i] != t[i]
    && forall k :: 0 <= k < |s| && k != i ==> s[k] == t[k]
  }

  // One wrong byte always changes the hash.
  lemma {:induction false} OneWrongByteChangesHash(s: seq<Byte>, t: seq<Byte>, i: nat)
    requires DifferOnlyAt(s, t, i)
    ensures XorAll(s) != XorAll(t)
  {
    var n := |s| - 1;
    if i == n {
      assert s[..n] == t[..n];
    } else {
      OneWrongByteChangesHash(s[..n], t[..n], i);
    }
  }

  // ---- copyFile ------------------------------------------------------------------------------

  const COPY_BUFFER := 16

  // The disk after each write of the copy loop, from position pos of the source on.
  function CopyLoop(st: Store, from: Name, to: Name, pos: nat): (steps: seq<Store>)
    requires from in st.disk && to in st.disk && from != to && pos <= |st.disk[from]|
    decreases |st.disk[from]| - pos
  {
    var data := st.disk[from];
    if pos == |data| then [] else
    var next := if pos + COPY_BUFFER <= |data| then pos + COPY_BUFFER else |data|;
    var st' := Append(st, to, data[pos..next]);
    [st'] + CopyLoop(st', from, to, next)
  }

  function Last(steps: seq<Store>, st: Store): Store {
    if steps == [] then st else steps[|steps| - 1]
  }

  function CopyFile(st: Store, from: Name, to: Name, platform: Platform, luck: Luck): (seq<Store>, bool)
    requires from != to
  {
    if !(luck.openSource && from in st.disk) then ([], false)
    else if !luck.openTarget then ([], false)
    else
      var st0 := Open(st, to, platform);
      ([st0] + CopyLoop(st0, from, to, 0), true)
  }

  function RenameFile(st: Store, from: Name, to: Name, platform: Platform, luck: Luck): (seq<Store>, bool)
    requires from != to
  {
    match platform
    case AtomicRename => if luck.rename && from in st.disk then ([Rename(st, from, to)], true) else ([], false)
    case _ =>
      var (steps, copied) := CopyFile(st, from, to, platform, luck);
      var end := Last(steps, st);
      if copied && luck.removeSource && from in end.disk then (steps + [Remove(end, from)], true) else (steps, false)
  }

  // ---- SafeFile::close -------------------------------------------------------------------------

  function TestReadback(st: Store, name: Name, hash: Byte, lfsFailed: bool, luck: Luck): bool {
    luck.readback && Tmp(name) in st.disk && XorAll(st.disk[Tmp(name)]) == hash && !lfsFailed
  }

  function CloseSteps(st: Store, name: Name, fullAtomic: bool, isOpen: bool, hash: Byte, lfsFailed: bool,
                      platform: Platform, luck: Luck): (seq<Store>, bool)
  {
    if !isOpen || !TestReadback(st, name, hash, lfsFailed, luck) then ([], false)
    else if fullAtomic && name in st.disk then
      if !luck.removeOld then ([], false)
      else
        var st1 := Remove(st, name);
        var (steps, ok) := RenameFile(st1, Tmp(name), name, platform, luck);
        ([st1] + steps, ok)
    else RenameFile(st, Tmp(name), name, platform, luck)
  }

  // ---- Crash safety ----------------------------------------------------------------------------

  // The named file is as it was, or v is whole under one of the two names.
  predicate Safe(d: Disk, before: Disk, name: Name, v: seq<Byte>) {
    Lookup(d, name) == Lookup(before, name) || Lookup(d, Tmp(name)) == [v] || Lookup(d, name) == [v]
  }

  predicate AllSafe(steps: seq<Store>, before: Disk, name: Name, v: seq<Byte>) {
    forall i :: 0 <= i < |steps| ==> Safe(steps[i].disk, before, name, v)
  }

  // Throughout the copy the source is whole.
  lemma {:induction false} CopyLoopKeepsSource(st: Store, from: Name, to: Name, pos: nat)
    requires from in st.disk && to in st.disk && from != to && pos <= |st.disk[from]|
    ensures forall i :: 0 <= i < |CopyLoop(st, from, to, pos)| ==>
              && from in CopyLoop(st, from, to, pos)[i].disk
              && CopyLoop(st, from, to, pos)[i].disk[from] == st.disk[from]
    decreases |st.disk[from]| - pos
  {
    var data := st.disk[from];
    if pos < |data| {
      var next := if pos + COPY_BUFFER <= |data| then pos + COPY_BUFFER else |data|;
      var st' := Append(st, to, data[pos..next]);
      CopyLoopKeepsSource(st', from, to, next);
      assert CopyLoop(st, from, to, pos) == [st'] + CopyLoop(st', from, to, next);
    }
  }

  function Room(st: Store, n: nat): nat {
    if n <= st.free then n else st.free
  }

  lemma AdjacentSlices(t: seq<Byte>, data: seq<Byte>, a: nat, b: nat, c: nat)
    requires a <= b <= c <= |data|
    ensures (t + data[a..b]) + data[b..c] == t + data[a..c]
  {
    assert data[a..b] + data[b..c] == data[a..c];
  }

  // At the end of the copy the target holds what fitted.
  lemma {:induction false} CopyLoopFillsTarget(st: Store, from: Name, to: Name, pos: nat)
    requires from in st.disk && to in st.disk && from != to && pos <= |st.disk[from]|
    ensures var data, end := st.disk[from], Last(CopyLoop(st, from, to, pos), st);
            && end.disk == st.disk[to := st.disk[to] + data[pos..pos + Room(st, |data| - pos)]]
            && end.free == st.free - Room(st, |data| - pos)
    decreases |st.disk[from]| - pos
  {
    var data := st.disk[from];
    if pos < |data| {
      var next := if pos + COPY_BUFFER <= |data| then pos + COPY_BUFFER else |data|;
      var st' := Append(st, to, data[pos..next]);
      AppendedSlice(st, from, to, pos, next);
      CopyLoopFillsTarget(st', from, to, next);
      LastOfStep(st, st', CopyLoop(st', from, to, next));
      RoomInTwoParts(st.disk[to], data, pos, next, st, st');
    } else {
      assert st.disk[to] + data[pos..pos] == st.disk[to];
      assert st.disk[to := st.disk[to]] == st.disk;
    }
  }

  lemma AppendedSlice(st: Store, from: Name, to: Name, pos: nat, next: nat)
    requires from in st.disk && to in st.disk && from != to && pos <= next <= |st.disk[from]|
    ensures var data, st' := st.disk[from], Append(st, to, st.disk[from][pos..next]);
            && st'.disk == st.disk[to := st.disk[to] + data[pos..pos + Room(st, next - pos)]]
            && st'.free == st.free - Room(st, next - pos)
  {
    var chunk := st.disk[from][pos..next];
    var n := Room(st, next - pos);
    assert chunk[..n] == st.disk[from][pos..pos + n];
  }

  // What fits of a slice fits in two parts as well.
  lemma RoomInTwoParts(t: seq<Byte>, data: seq<Byte>, pos: nat, next: nat, st: Store, st': Store)
    requires pos <= next <= |data| && st'.free == st.free - Room(st, next - pos)
    ensures (t + data[pos..pos + Room(st, next - pos)]) + data[next..next + Room(st', |data| - next)] ==
            t + data[pos..pos + Room(st, |data| - pos)]
    ensures st'.free - Room(st', |data| - next) == st.free - Room(st, |data| - pos)
  {
    var mid, n := pos + Room(st, next - pos), Room(st', |data| - next);
    if mid == next {
      AdjacentSlices(t, data, pos, next, next + n);
    } else {
      assert data[next..next + n] == [];
    }
  }

  lemma LastOfStep(st: Store, next: Store, rest: seq<Store>)
    ensures Last([next] + rest, st) == Last(rest, next)
  {
  }

  lemma RenameIsSafe(st: Store, name: Name, platform: Platform, luck: Luck, before: Disk, v: seq<Byte>)
    requires Lookup(st.disk, Tmp(name)) == [v] && Lookup(st.disk, name) == []
    requires platform != AtomicRename ==> |v| <= st.free
    ensures var (steps, ok) := RenameFile(st, Tmp(name), name, platform, luck);
            AllSafe(steps, before, name, v) && (ok ==> Lookup(Last(steps, st).disk, name) == [v])
  {
    var tmp := Tmp(name);
    assert tmp != name;
    if platform != AtomicRename && luck.openSource && luck.openTarget {
      var st0 := Create(st, name);
      var loop := CopyLoop(st0, tmp, name, 0);
      var end := Last(loop, st0);
      CopyLoopKeepsSource(st0, tmp, name, 0);
      CopyLoopFillsTarget(st0, tmp, name, 0);
      assert v == st0.disk[tmp] && v[0..|v|] == v;
      assert end.disk[name] == v;
      var steps := [st0] + loop;
      assert Last(steps, st) == end;
      assert AllSafe(steps, before, name, v);
      var all := steps + [Remove(end, tmp)];
      assert AllSafe(all, before, name, v);
      assert RenameFile(st, tmp, name, platform, luck) == if luck.removeSource then (all, true) else (steps, false);
    }
  }

  // Room for the copy once the old file is gone: what the copying platforms need.
  predicate Fits(st: Store, name: Name, v: seq<Byte>) {
    |v| <= st.free + Size(st, name)
  }

  // fullAtomic close: at every crash point the old file is whole under its name or the
  // verified bytes are whole under one of the two names; success means under the name.
  lemma CloseIsCrashSafe(st: Store, name: Name, isOpen: bool, hash: Byte, lfsFailed: bool,
                         platform: Platform, luck: Luck, v: seq<Byte>)
    requires Lookup(st.disk, Tmp(name)) == [v]
    requires platform != AtomicRename ==> Fits(st, name, v)
    ensures var (steps, ok) := CloseSteps(st, name, true, isOpen, hash, lfsFailed, platform, luck);
            && AllSafe(steps, st.disk, name, v)
            && (steps != [] ==> XorAll(v) == hash)
            && (ok ==> XorAll(v) == hash && !lfsFailed && Lookup(Last(steps, st).disk, name) == [v])
  {
    if isOpen && TestReadback(st, name, hash, lfsFailed, luck) {
      assert Tmp(name) != name;
      if name in st.disk {
        if luck.removeOld {
          var st1 := Remove(st, name);
          RenameIsSafe(st1, name, platform, luck, st.disk, v);
          var (steps, ok) := RenameFile(st1, Tmp(name), name, platform, luck);
          assert Last([st1] + steps, st) == Last(steps, st1);
        }
      } else {
        RenameIsSafe(st, name, platform, luck, st.disk, v);
      }
    }
  }

  // ---- Delivery, with or without fullAtomic -----------------------------------------------------

  // The bytes are under the name, the temporary file is gone, and no other file has changed.
  predicate Replaced(after: Disk, before: Disk, name: Name, v: seq<Byte>) {
    after == (before - {Tmp(name)})[name := v]
  }

  lemma CopyReplaces(st: Store, name: Name, v: seq<Byte>)
    requires Lookup(st.disk, Tmp(name)) == [v] && |v| <= st.free + Size(st, name)
    ensures var st0 := Create(st, name);
            Replaced(Remove(Last(CopyLoop(st0, Tmp(name), name, 0), st0), Tmp(name)).disk, st.disk, name, v)
  {
    assert Tmp(name) != name;
    var st0 := Create(st, name);
    CopyLoopFillsTarget(st0, Tmp(name), name, 0);
    assert [] + v[0..|v|] == v;
  }

  lemma RenameReplaces(st: Store, name: Name, platform: Platform, luck: Luck, v: seq<Byte>)
    requires Lookup(st.disk, Tmp(name)) == [v] && (platform == CopyAndAppend ==> name !in st.disk)
    requires platform == AtomicRename || Fits(st, name, v)
    ensures var (steps, ok) := RenameFile(st, Tmp(name), name, platform, luck);
            ok ==> Replaced(Last(steps, st).disk, st.disk, name, v)
  {
    assert Tmp(name) != name;
    if platform != AtomicRename {
      var st0 := Create(st, name);
      LastOfStep(st, st0, CopyLoop(st0, Tmp(name), name, 0));
      CopyReplaces(st, name, v);
    }
  }

  // Where a write-open keeps a file's bytes, close finds none under the name: it removes the old file
  // itself, or the constructor has.
  predicate Cleared(st: Store, name: Name, fullAtomic: bool, platform: Platform) {
    fullAtomic || platform != CopyAndAppend || name !in st.disk
  }

  // The store from which close renames.
  function Emptied(st: Store, name: Name, fullAtomic: bool): Store {
    if fullAtomic && name in st.disk then Remove(st, name) else st
  }

  lemma CloseRenames(st: Store, name: Name, fullAtomic: bool, isOpen: bool, hash: Byte, lfsFailed: bool,
                     platform: Platform, luck: Luck)
    ensures var (steps, ok) := CloseSteps(st, name, fullAtomic, isOpen, hash, lfsFailed, platform, luck);
            var st1 := Emptied(st, name, fullAtomic);
            var (renaming, renamed) := RenameFile(st1, Tmp(name), name, platform, luck);
            ok ==>
              && isOpen && TestReadback(st, name, hash, lfsFailed, luck)
              && renamed && Last(steps, st) == Last(renaming, st1)
  {
    assert Tmp(name) != name;
    LastOfStep(st, Emptied(st, name, fullAtomic),
               RenameFile(Emptied(st, name, fullAtomic), Tmp(name), name, platform, luck).0);
  }

  // A close that reports success has the verified bytes in place, and nothing but them.
  lemma CloseDelivers(st: Store, name: Name, fullAtomic: bool, isOpen: bool, hash: Byte, lfsFailed: bool,
                      platform: Platform, luck: Luck, v: seq<Byte>)
    requires Lookup(st.disk, Tmp(name)) == [v] && Cleared(st, name, fullAtomic, platform)
    requires platform == AtomicRename || Fits(st, name, v)
    ensures var (steps, ok) := CloseSteps(st, name, fullAtomic, isOpen, hash, lfsFailed, platform, luck);
            && (steps != [] || ok ==> isOpen && XorAll(v) == hash && !lfsFailed)
            && (ok ==> Replaced(Last(steps, st).disk, st.disk, name, v))
  {
    assert Tmp(name) != name;
    var st1 := Emptied(st, name, fullAtomic);
    CloseRenames(st, name, fullAtomic, isOpen, hash, lfsFailed, platform, luck);
    RenameReplaces(st1, name, platform, luck, v);
    assert (st1.disk - {Tmp(name)})[name := v] == (st.disk - {Tmp(name)})[name := v];
  }

  predicate Delivers(st: Store, name: Name, fullAtomic: bool, hash: Byte, platform: Platform, luck: Luck,
                     v: seq<Byte>) {
    var (steps, ok) := CloseSteps(st, name, fullAtomic, true, hash, false, platform, luck);
    ok ==> Replaced(Last(steps, st).disk, st.disk, name, v)
  }

  // The copy loop never looks at what its writes return. So a close that reports success has
  // delivered the verified bytes exactly when rename is atomic or the copy has room.
  lemma DeliversExactlyWhenItFits(st: Store, name: Name, fullAtomic: bool, hash: Byte, platform: Platform, v: seq<Byte>)
    requires Lookup(st.disk, Tmp(name)) == [v] && XorAll(v) == hash && Cleared(st, name, fullAtomic, platform)
    ensures (forall luck :: Delivers(st, name, fullAtomic, hash, platform, luck, v)) <==>
            platform == AtomicRename || Fits(st, name, v)
  {
    if platform == AtomicRename || Fits(st, name, v) {
      forall luck ensures Delivers(st, name, fullAtomic, hash, platform, luck, v) {
        CloseDelivers(st, name, fullAtomic, true, hash, false, platform, luck, v);
      }
    } else {
      CopyWithoutRoomLosesData(st, name, fullAtomic, hash, platform, v);
    }
  }

  lemma CopyWithoutRoomLosesData(st: Store, name: Name, fullAtomic: bool, hash: Byte, platform: Platform, v: seq<Byte>)
    requires Lookup(st.disk, Tmp(name)) == [v] && XorAll(v) == hash && !Fits(st, name, v)
    requires platform != AtomicRename && Cleared(st, name, fullAtomic, platform)
    ensures !Delivers(st, name, fullAtomic, hash, platform, FORTUNE, v)
  {
    var tmp := Tmp(name);
    assert tmp != name;
    var st1 := Emptied(st, name, fullAtomic);
    var st0 := Create(st1, name);
    CopyLoopFillsTarget(st0, tmp, name, 0);
    LastOfStep(st1, st0, CopyLoop(st0, tmp, name, 0));
    CloseSucceedsExactly(st, name, fullAtomic, hash, false, platform, FORTUNE);
    CloseRenames(st, name, fullAtomic, true, hash, false, platform, FORTUNE);
    FortunateCopy(st1, name, platform);
    var end := Last(CloseSteps(st, name, fullAtomic, true, hash, false, platform, FORTUNE).0, st);
    assert end == Remove(Last(CopyLoop(st0, tmp, name, 0), st0), tmp);
    assert |end.disk[name]| < |v|;
    assert (st.disk - {tmp})[name := v][name] == v;
  }

  lemma FortunateCopy(st: Store, name: Name, platform: Platform)
    requires Tmp(name) in st.disk && platform != AtomicRename && (platform == CopyAndAppend ==> name !in st.disk)
    ensures var st0 := Create(st, name);
            Last(RenameFile(st, Tmp(name), name, platform, FORTUNE).0, st) ==
            Remove(Last(CopyLoop(st0, Tmp(name), name, 0), st0), Tmp(name))
  {
    assert Tmp(name) != name;
    var st0 := Create(st, name);
    CopyLoopFillsTarget(st0, Tmp(name), name, 0);
    LastOfStep(st, st0, CopyLoop(st0, Tmp(name), name, 0));
  }

  // Every call that a save needs has to succeed: removing the old file only if fullAtomic finds one,
  // and of the others those that its platform makes.
  predicate AllSucceed(luck: Luck, platform: Platform, removes: bool) {
    && luck.openTmp && luck.readback && (removes ==> luck.removeOld)
    && if platform == AtomicRename then luck.rename else luck.openSource && luck.openTarget && luck.removeSource
  }

  lemma RenameSucceedsExactly(st: Store, name: Name, platform: Platform, luck: Luck)
    requires Tmp(name) in st.disk
    ensures RenameFile(st, Tmp(name), name, platform, luck).1 <==>
            if platform == AtomicRename then luck.rename else luck.openSource && luck.openTarget && luck.removeSource
  {
    assert Tmp(name) != name;
    var st0 := Open(st, name, platform);
    CopyLoopFillsTarget(st0, Tmp(name), name, 0);
    LastOfStep(st, st0, CopyLoop(st0, Tmp(name), name, 0));
  }

  lemma CloseSucceedsExactly(st: Store, name: Name, fullAtomic: bool, hash: Byte, lfsFailed: bool, platform: Platform,
                             luck: Luck)
    requires Tmp(name) in st.disk && luck.openTmp
    ensures CloseSteps(st, name, fullAtomic, true, hash, lfsFailed, platform, luck).1 <==>
            && XorAll(st.disk[Tmp(name)]) == hash && !lfsFailed
            && AllSucceed(luck, platform, fullAtomic && name in st.disk)
  {
    assert Tmp(name) != name;
    RenameSucceedsExactly(Emptied(st, name, fullAtomic), name, platform, luck);
  }

  // ---- A whole save: construction, writes, close ------------------------------------------------

  // One write call: the bytes handed over, and what the medium keeps of them.
  datatype Chunk = Chunk(data: seq<Byte>, kept: seq<Byte>)

  function Intended(chunks: seq<Chunk>): seq<Byte> {
    if chunks == [] then [] else Intended(chunks[..|chunks| - 1]) + chunks[|chunks| - 1].data
  }

  function Kept(chunks: seq<Chunk>): seq<Byte> {
    if chunks == [] then [] else Kept(chunks[..|chunks| - 1]) + chunks[|chunks| - 1].kept
  }

  function OpenSteps(st: Store, name: Name, fullAtomic: bool, platform: Platform, luck: Luck): seq<Store> {
    var steps := if fullAtomic then [] else [Remove(st, name)];
    if luck.openTmp then steps + [Open(Last(steps, st), Tmp(name), platform)] else steps
  }

  function WriteSteps(st: Store, name: Name, chunks: seq<Chunk>): (steps: seq<Store>)
    requires Tmp(name) in st.disk
    ensures Tmp(name) in Last(steps, st).disk
  {
    if chunks == [] then [] else
    var front := WriteSteps(st, name, chunks[..|chunks| - 1]);
    front + [Append(Last(front, st), Tmp(name), chunks[|chunks| - 1].kept)]
  }

  function SaveSteps(st: Store, name: Name, fullAtomic: bool, chunks: seq<Chunk>, lfsFailed: bool,
                     platform: Platform, luck: Luck): (seq<Store>, bool)
  {
    var open := OpenSteps(st, name, fullAtomic, platform, luck);
    if !luck.openTmp then (open, false)
    else
      var st1 := Last(open, st);
      var written := WriteSteps(st1, name, chunks);
      var (closed, ok) := CloseSteps(Last(written, st1), name, fullAtomic, true, XorAll(Intended(chunks)),
                                     lfsFailed, platform, luck);
      (open + written + closed, ok)
  }

  lemma {:induction false} WritesTouchOnlyTmp(st: Store, name: Name, chunks: seq<Chunk>)
    requires Tmp(name) in st.disk
    ensures var steps := WriteSteps(st, name, chunks);
            && (forall i :: 0 <= i < |steps| ==> Lookup(steps[i].disk, name) == Lookup(st.disk, name))
            && Last(steps, st).disk == st.disk[Tmp(name) := Last(steps, st).disk[Tmp(name)]]
            && Last(steps, st).free + |Last(steps, st).disk[Tmp(name)]| == st.free + |st.disk[Tmp(name)]|
  {
    assert Tmp(name) != name;
    if chunks != [] {
      WritesTouchOnlyTmp(st, name, chunks[..|chunks| - 1]);
    }
  }

  lemma {:induction false} WritesStoreWhatFits(st: Store, name: Name, chunks: seq<Chunk>)
    requires Tmp(name) in st.disk && |Kept(chunks)| <= st.free
    ensures var end := Last(WriteSteps(st, name, chunks), st);
            end.disk[Tmp(name)] == st.disk[Tmp(name)] + Kept(chunks) && end.free == st.free - |Kept(chunks)|
  {
    if chunks != [] {
      WritesStoreWhatFits(st, name, chunks[..|chunks| - 1]);
    }
  }

  // The store when close begins, and what the writes have left in the temporary file.
  function BeforeClose(st: Store, name: Name, fullAtomic: bool, chunks: seq<Chunk>, platform: Platform,
                       luck: Luck): Store
    requires luck.openTmp
  {
    var st1 := Last(OpenSteps(st, name, fullAtomic, platform, luck), st);
    Last(WriteSteps(st1, name, chunks), st1)
  }

  function Written(st: Store, name: Name, fullAtomic: bool, chunks: seq<Chunk>, platform: Platform,
                   luck: Luck): seq<Byte>
    requires luck.openTmp
  {
    BeforeClose(st, name, fullAtomic, chunks, platform, luck).disk[Tmp(name)]
  }

  // What an earlier save that did not finish leaves in front of this one.
  function Stale(st: Store, name: Name, platform: Platform): seq<Byte> {
    if platform == CopyAndAppend && Tmp(name) in st.disk then st.disk[Tmp(name)] else []
  }

  lemma OpenedTmpIsStale(st: Store, name: Name, fullAtomic: bool, platform: Platform, luck: Luck)
    requires luck.openTmp
    ensures var st1 := Last(OpenSteps(st, name, fullAtomic, platform, luck), st);
            && Lookup(st1.disk, Tmp(name)) == [Stale(st, name, platform)]
            && (fullAtomic ==> OpenSteps(st, name, true, platform, luck) == [Open(st, Tmp(name), platform)]
                               && st1 == Open(st, Tmp(name), platform))
  {
    assert Tmp(name) != name;
    var steps := if fullAtomic then [] else [Remove(st, name)];
    assert OpenSteps(st, name, fullAtomic, platform, luck) == steps + [Open(Last(steps, st), Tmp(name), platform)];
  }

  // Steps safe with respect to a later disk that still has the old file are safe.
  lemma SafeSinceStart(steps: seq<Store>, mid: Disk, before: Disk, name: Name, v: seq<Byte>)
    requires AllSafe(steps, mid, name, v) && Lookup(mid, name) == Lookup(before, name)
    ensures AllSafe(steps, before, name, v)
  {
  }

  lemma AllSafeAppend(a: seq<Store>, b: seq<Store>, before: Disk, name: Name, v: seq<Byte>)
    requires AllSafe(a, before, name, v) && AllSafe(b, before, name, v)
    ensures AllSafe(a + b, before, name, v)
  {
  }

  // fullAtomic save: at every crash point from construction to the end of close the old
  // file is whole, or the bytes that passed readback are. Success means they are in place.
  lemma SaveIsCrashSafe(st: Store, name: Name, chunks: seq<Chunk>, lfsFailed: bool, platform: Platform, luck: Luck)
    requires luck.openTmp
    requires platform != AtomicRename ==>
               2 * |Written(st, name, true, chunks, platform, luck)| <= st.free + Size(st, name) + Size(st, Tmp(name))
    ensures var v := Written(st, name, true, chunks, platform, luck);
            var (steps, ok) := SaveSteps(st, name, true, chunks, lfsFailed, platform, luck);
            && AllSafe(steps, st.disk, name, v)
            && (ok ==> XorAll(v) == XorAll(Intended(chunks)) && Lookup(Last(steps, st).disk, name) == [v])
  {
    assert Tmp(name) != name;
    var v := Written(st, name, true, chunks, platform, luck);
    OpenedTmpIsStale(st, name, true, platform, luck);
    var st1 := Open(st, Tmp(name), platform);
    var open := [st1];
    var written := WriteSteps(st1, name, chunks);
    var st2 := Last(written, st1);
    WritesTouchOnlyTmp(st1, name, chunks);
    var hash := XorAll(Intended(chunks));
    CloseIsCrashSafe(st2, name, true, hash, lfsFailed, platform, luck, v);
    var (closed, ok) := CloseSteps(st2, name, true, true, hash, lfsFailed, platform, luck);
    SafeSinceStart(closed, st2.disk, st.disk, name, v);
    assert AllSafe(open, st.disk, name, v);
    AllSafeAppend(open, written, st.disk, name, v);
    AllSafeAppend(open + written, closed, st.disk, name, v);
    assert SaveSteps(st, name, true, chunks, lfsFailed, platform, luck) == (open + written + closed, ok);
    assert Last(open + written + closed, st) == Last(closed, st2);
  }

  // What close reads back.
  lemma ReadbackSees(st: Store, name: Name, fullAtomic: bool, chunks: seq<Chunk>, platform: Platform, luck: Luck)
    requires luck.openTmp
    requires |Kept(chunks)| <= Last(OpenSteps(st, name, fullAtomic, platform, luck), st).free
    ensures var st1 := Last(OpenSteps(st, name, fullAtomic, platform, luck), st);
            && Lookup(Last(WriteSteps(st1, name, chunks), st1).disk, Tmp(name)) ==
                [Stale(st, name, platform) + Kept(chunks)]
            && XorAll(Stale(st, name, platform) + Kept(chunks)) ==
                XorAll(Stale(st, name, platform)) ^ XorAll(Kept(chunks))
  {
    OpenedTmpIsStale(st, name, fullAtomic, platform, luck);
    WritesStoreWhatFits(Last(OpenSteps(st, name, fullAtomic, platform, luck), st), name, chunks);
    XorAllAppend(Stale(st, name, platform), Kept(chunks));
  }

  // A single byte stored wrongly makes close report failure, unless bytes of an unfinished save
  // stand in front and have a hash other than zero.
  lemma OneWrongByteFailsTheSave(st: Store, name: Name, fullAtomic: bool, chunks: seq<Chunk>, lfsFailed: bool,
                                 platform: Platform, luck: Luck, i: nat)
    requires luck.openTmp
    requires |Kept(chunks)| <= Last(OpenSteps(st, name, fullAtomic, platform, luck), st).free
    requires DifferOnlyAt(Kept(chunks), Intended(chunks), i)
    requires XorAll(Stale(st, name, platform)) == 0
    ensures !SaveSteps(st, name, fullAtomic, chunks, lfsFailed, platform, luck).1
  {
    SuccessMeansHash(st, name, fullAtomic, chunks, lfsFailed, platform, luck);
    OneWrongByteChangesHash(Kept(chunks), Intended(chunks), i);
    XorZero(XorAll(Kept(chunks)));
  }

  lemma XorZero(b: Byte)
    ensures 0 ^ b == b
  {
  }

  lemma SuccessMeansHash(st: Store, name: Name, fullAtomic: bool, chunks: seq<Chunk>, lfsFailed: bool,
                         platform: Platform, luck: Luck)
    requires luck.openTmp
    requires |Kept(chunks)| <= Last(OpenSteps(st, name, fullAtomic, platform, luck), st).free
    ensures SaveSteps(st, name, fullAtomic, chunks, lfsFailed, platform, luck).1 ==>
              XorAll(Stale(st, name, platform)) ^ XorAll(Kept(chunks)) == XorAll(Intended(chunks))
  {
    ReadbackSees(st, name, fullAtomic, chunks, platform, luck);
    var st1 := Last(OpenSteps(st, name, fullAtomic, platform, luck), st);
    var st2 := Last(WriteSteps(st1, name, chunks), st1);
    var hash := XorAll(Intended(chunks));
    if CloseSteps(st2, name, fullAtomic, true, hash, lfsFailed, platform, luck).1 {
      assert XorAll(st2.disk[Tmp(name)]) == hash;
    }
  }

  // When close begins, without fullAtomic the old file is gone, and only the temporary one is new.
  lemma DiskBeforeClose(st: Store, name: Name, fullAtomic: bool, chunks: seq<Chunk>, platform: Platform, luck: Luck)
    requires luck.openTmp
    ensures var v, st2 := Written(st, name, fullAtomic, chunks, platform, luck),
                          BeforeClose(st, name, fullAtomic, chunks, platform, luck);
            && st2.disk == (if fullAtomic then st.disk else st.disk - {name})[Tmp(name) := v]
            && Cleared(st2, name, fullAtomic, platform)
  {
    assert Tmp(name) != name;
    var st1 := Last(OpenSteps(st, name, fullAtomic, platform, luck), st);
    OpenedDisk(st, name, fullAtomic, platform, luck);
    WritesTouchOnlyTmp(st1, name, chunks);
  }

  lemma OpenedDisk(st: Store, name: Name, fullAtomic: bool, platform: Platform, luck: Luck)
    requires luck.openTmp
    ensures var st1 := Last(OpenSteps(st, name, fullAtomic, platform, luck), st);
            st1.disk == (if fullAtomic then st.disk else st.disk - {name})[Tmp(name) := Stale(st, name, platform)]
  {
    assert Tmp(name) != name;
    if fullAtomic {
      assert OpenSteps(st, name, true, platform, luck) == [Open(st, Tmp(name), platform)];
    } else {
      assert OpenSteps(st, name, false, platform, luck) ==
             [Remove(st, name), Open(Remove(st, name), Tmp(name), platform)];
    }
  }

  lemma SaveCloses(st: Store, name: Name, fullAtomic: bool, chunks: seq<Chunk>, lfsFailed: bool, platform: Platform,
                   luck: Luck)
    requires luck.openTmp
    ensures var (steps, ok) := SaveSteps(st, name, fullAtomic, chunks, lfsFailed, platform, luck);
            var st2 := BeforeClose(st, name, fullAtomic, chunks, platform, luck);
            var (closing, closed) := CloseSteps(st2, name, fullAtomic, true, XorAll(Intended(chunks)), lfsFailed,
                                                platform, luck);
            ok == closed && Last(steps, st) == Last(closing, st2)
  {
    OpenedTmpIsStale(st, name, fullAtomic, platform, luck);
  }

  // With or without fullAtomic: a save that reports success has left exactly what it wrote, with the
  // hash of what it was given, in place of the old file.
  lemma SaveDelivers(st: Store, name: Name, fullAtomic: bool, chunks: seq<Chunk>, lfsFailed: bool, platform: Platform,
                     luck: Luck)
    requires luck.openTmp
    requires platform == AtomicRename || Fits(BeforeClose(st, name, fullAtomic, chunks, platform, luck), name,
                                              Written(st, name, fullAtomic, chunks, platform, luck))
    ensures var v := Written(st, name, fullAtomic, chunks, platform, luck);
            var (steps, ok) := SaveSteps(st, name, fullAtomic, chunks, lfsFailed, platform, luck);
            ok ==>
              XorAll(v) == XorAll(Intended(chunks)) && !lfsFailed && Replaced(Last(steps, st).disk, st.disk, name, v)
  {
    assert Tmp(name) != name;
    var v := Written(st, name, fullAtomic, chunks, platform, luck);
    var st2 := BeforeClose(st, name, fullAtomic, chunks, platform, luck);
    DiskBeforeClose(st, name, fullAtomic, chunks, platform, luck);
    SaveCloses(st, name, fullAtomic, chunks, lfsFailed, platform, luck);
    CloseDelivers(st2, name, fullAtomic, true, XorAll(Intended(chunks)), lfsFailed, platform, luck, v);
    SameReplacement(st.disk, st2.disk, name, fullAtomic, v);
  }

  lemma SameReplacement(before: Disk, mid: Disk, name: Name, fullAtomic: bool, v: seq<Byte>)
    requires mid == (if fullAtomic then before else before - {name})[Tmp(name) := v]
    ensures (mid - {Tmp(name)})[name := v] == (before - {Tmp(name)})[name := v]
  {
    assert Tmp(name) != name;
  }

  // With any luck: a save reports success exactly if the hashes agree and no call it needs has failed.
  lemma ReportsExactly(st: Store, name: Name, fullAtomic: bool, chunks: seq<Chunk>, lfsFailed: bool, platform: Platform,
                       luck: Luck)
    requires |Kept(chunks)| <= Last(OpenSteps(st, name, fullAtomic, platform, luck), st).free
    ensures SaveSteps(st, name, fullAtomic, chunks, lfsFailed, platform, luck).1 <==>
            && XorAll(Stale(st, name, platform)) ^ XorAll(Kept(chunks)) == XorAll(Intended(chunks))
            && !lfsFailed && AllSucceed(luck, platform, fullAtomic && name in st.disk)
  {
    if luck.openTmp {
      var st2 := BeforeClose(st, name, fullAtomic, chunks, platform, luck);
      assert Tmp(name) != name;
      ReadbackSees(st, name, fullAtomic, chunks, platform, luck);
      DiskBeforeClose(st, name, fullAtomic, chunks, platform, luck);
      SaveCloses(st, name, fullAtomic, chunks, lfsFailed, platform, luck);
      CloseSucceedsExactly(st2, name, fullAtomic, XorAll(Intended(chunks)), lfsFailed, platform, luck);
    }
  }

  // With every call lucky, the hashes decide: stale bytes can refuse a faithful save as well as
  // let a damaged one through.
  lemma SucceedsExactly(st: Store, name: Name, fullAtomic: bool, chunks: seq<Chunk>, platform: Platform)
    requires |Kept(chunks)| <= Last(OpenSteps(st, name, fullAtomic, platform, FORTUNE), st).free
    ensures SaveSteps(st, name, fullAtomic, chunks, false, platform, FORTUNE).1 <==>
            XorAll(Stale(st, name, platform)) ^ XorAll(Kept(chunks)) == XorAll(Intended(chunks))
  {
    ReportsExactly(st, name, fullAtomic, chunks, false, platform, FORTUNE);
  }

  lemma XorMovesZero(a: Byte, b: Byte)
    ensures a ^ b == b <==> a == 0
  {
  }

  // Room for the writes and, where a rename copies, for the copy.
  predicate RoomForBoth(st: Store, name: Name, stale: seq<Byte>, kept: seq<Byte>, platform: Platform) {
    |kept| <= st.free && (platform != AtomicRename ==> |stale| + 2 * |kept| <= st.free + Size(st, name))
  }

  lemma WrittenIsStaleAndKept(st: Store, name: Name, fullAtomic: bool, chunks: seq<Chunk>, platform: Platform)
    requires RoomForBoth(Last(OpenSteps(st, name, fullAtomic, platform, FORTUNE), st), name, Stale(st, name, platform),
                         Kept(chunks), platform)
    ensures var v := Written(st, name, fullAtomic, chunks, platform, FORTUNE);
            && v == Stale(st, name, platform) + Kept(chunks)
            && (platform != AtomicRename ==>
                  Fits(BeforeClose(st, name, fullAtomic, chunks, platform, FORTUNE), name, v))
  {
    assert Tmp(name) != name;
    var st1 := Last(OpenSteps(st, name, fullAtomic, platform, FORTUNE), st);
    OpenedTmpIsStale(st, name, fullAtomic, platform, FORTUNE);
    WritesStoreWhatFits(st1, name, chunks);
    WritesTouchOnlyTmp(st1, name, chunks);
  }

  // With a faithful medium, room and luck: the save succeeds exactly when the stale bytes have
  // hash zero, and puts the intended bytes in place exactly when there are no stale bytes.
  lemma FaithfulSaveSucceeds(st: Store, name: Name, fullAtomic: bool, chunks: seq<Chunk>, platform: Platform)
    requires Kept(chunks) == Intended(chunks)
    requires RoomForBoth(Last(OpenSteps(st, name, fullAtomic, platform, FORTUNE), st), name, Stale(st, name, platform),
                         Kept(chunks), platform)
    ensures var (steps, ok) := SaveSteps(st, name, fullAtomic, chunks, false, platform, FORTUNE);
            && (ok <==> XorAll(Stale(st, name, platform)) == 0)
            && (ok ==> Replaced(Last(steps, st).disk, st.disk, name, Stale(st, name, platform) + Intended(chunks)))
            && (ok && Replaced(Last(steps, st).disk, st.disk, name, Intended(chunks)) <==>
                  Stale(st, name, platform) == [])
  {
    var stale := Stale(st, name, platform);
    WrittenIsStaleAndKept(st, name, fullAtomic, chunks, platform);
    SaveDelivers(st, name, fullAtomic, chunks, false, platform, FORTUNE);
    SucceedsExactly(st, name, fullAtomic, chunks, platform);
    XorMovesZero(XorAll(stale), XorAll(Intended(chunks)));
    OnlyOneContent(st.disk, name, stale + Intended(chunks), Intended(chunks));
    if stale + Intended(chunks) == Intended(chunks) {
      assert |stale| == 0;
    }
  }

  lemma OnlyOneContent(before: Disk, name: Name, v: seq<Byte>, w: seq<Byte>)
    ensures (before - {Tmp(name)})[name := v] == (before - {Tmp(name)})[name := w] <==> v == w
  {
    var d, e := (before - {Tmp(name)})[name := v], (before - {Tmp(name)})[name := w];
    assert d[name] == v && e[name] == w;
  }

  // ---- Other files ------------------------------------------------------------------------------

  function Others(disk: Disk, name: Name): Disk {
    disk - {name, Tmp(name)}
  }

  predicate OthersStay(steps: seq<Store>, before: Disk, name: Name) {
    forall i | 0 <= i < |steps| :: Others(steps[i].disk, name) == Others(before, name)
  }

  lemma OthersStayAppend(a: seq<Store>, b: seq<Store>, before: Disk, name: Name)
    requires OthersStay(a, before, name) && OthersStay(b, before, name)
    ensures OthersStay(a + b, before, name)
  {
  }

  lemma {:induction false} CopyKeepsOthers(st: Store, name: Name, pos: nat)
    requires Tmp(name) in st.disk && name in st.disk && Tmp(name) != name && pos <= |st.disk[Tmp(name)]|
    ensures OthersStay(CopyLoop(st, Tmp(name), name, pos), st.disk, name)
    decreases |st.disk[Tmp(name)]| - pos
  {
    var data := st.disk[Tmp(name)];
    if pos < |data| {
      var next := if pos + COPY_BUFFER <= |data| then pos + COPY_BUFFER else |data|;
      var st' := Append(st, name, data[pos..next]);
      CopyKeepsOthers(st', name, next);
      assert Others(st'.disk, name) == Others(st.disk, name);
      OthersStayAppend([st'], CopyLoop(st', Tmp(name), name, next), st.disk, name);
    }
  }

  lemma RenameKeepsOthers(st: Store, name: Name, platform: Platform, luck: Luck)
    ensures Tmp(name) != name && OthersStay(RenameFile(st, Tmp(name), name, platform, luck).0, st.disk, name)
  {
    assert Tmp(name) != name;
    if platform == AtomicRename {
      if luck.rename && Tmp(name) in st.disk {
        assert Others(Rename(st, Tmp(name), name).disk, name) == Others(st.disk, name);
      }
    } else if luck.openSource && Tmp(name) in st.disk && luck.openTarget {
      var st0 := Open(st, name, platform);
      var loop := CopyLoop(st0, Tmp(name), name, 0);
      var end := Last([st0] + loop, st);
      CopyKeepsOthers(st0, name, 0);
      assert Others(st0.disk, name) == Others(st.disk, name);
      OthersStayAppend([st0], loop, st.disk, name);
      assert Others(Remove(end, Tmp(name)).disk, name) == Others(end.disk, name);
      OthersStayAppend([st0] + loop, [Remove(end, Tmp(name))], st.disk, name);
    }
  }

  lemma CloseKeepsOthers(st: Store, name: Name, fullAtomic: bool, hash: Byte, lfsFailed: bool, platform: Platform,
                         luck: Luck)
    ensures OthersStay(CloseSteps(st, name, fullAtomic, true, hash, lfsFailed, platform, luck).0, st.disk, name)
  {
    var st1 := Emptied(st, name, fullAtomic);
    var renaming := RenameFile(st1, Tmp(name), name, platform, luck).0;
    RenameKeepsOthers(st1, name, platform, luck);
    assert Others(st1.disk, name) == Others(st.disk, name);
    OthersStayAppend([st1], renaming, st.disk, name);
  }

  lemma {:induction false} WritesKeepOthers(st: Store, name: Name, chunks: seq<Chunk>)
    requires Tmp(name) in st.disk
    ensures OthersStay(WriteSteps(st, name, chunks), st.disk, name)
    ensures Others(Last(WriteSteps(st, name, chunks), st).disk, name) == Others(st.disk, name)
  {
    if chunks != [] {
      var front := WriteSteps(st, name, chunks[..|chunks| - 1]);
      WritesKeepOthers(st, name, chunks[..|chunks| - 1]);
      var next := Append(Last(front, st), Tmp(name), chunks[|chunks| - 1].kept);
      assert Others(next.disk, name) == Others(Last(front, st).disk, name);
    }
  }

  // Whatever succeeds or fails, no step of a save touches any other file.
  lemma SaveKeepsOthers(st: Store, name: Name, fullAtomic: bool, chunks: seq<Chunk>, lfsFailed: bool,
                        platform: Platform, luck: Luck)
    ensures OthersStay(SaveSteps(st, name, fullAtomic, chunks, lfsFailed, platform, luck).0, st.disk, name)
  {
    var open := OpenSteps(st, name, fullAtomic, platform, luck);
    var cleared := if fullAtomic then st else Remove(st, name);
    assert Others(cleared.disk, name) == Others(st.disk, name);
    if luck.openTmp {
      var st1 := Open(cleared, Tmp(name), platform);
      var written := WriteSteps(st1, name, chunks);
      assert open == (if fullAtomic then [st1] else [cleared, st1]);
      assert Others(st1.disk, name) == Others(st.disk, name);
      WritesKeepOthers(st1, name, chunks);
      CloseKeepsOthers(Last(written, st1), name, fullAtomic, XorAll(Intended(chunks)), lfsFailed, platform, luck);
      OthersStayAppend(open, written, st.disk, name);
      OthersStayAppend(open + written, CloseSteps(Last(written, st1), name, fullAtomic, true, XorAll(Intended(chunks)),
                                                  lfsFailed, platform, luck).0, st.disk, name);
    }
  }
}
