// Any number of saves in a row, each cut short anywhere by a crash or run to its end.
module Saves {
  import opened FileSteps

  // cut: how many of the file-system steps are made before the power fails.
  datatype Save = Save(chunks: seq<Chunk>, lfsFailed: bool, luck: Luck, cut: nat)

  function Steps(st: Store, name: Name, save: Save, platform: Platform): seq<Store> {
    SaveSteps(st, name, true, save.chunks, save.lfsFailed, platform, save.luck).0
  }

  function Cut(steps: seq<Store>, cut: nat): seq<Store> {
    if cut < |steps| then steps[..cut] else steps
  }

  function Made(st: Store, name: Name, save: Save, platform: Platform): seq<Store> {
    Cut(Steps(st, name, save, platform), save.cut)
  }

  function Next(st: Store, name: Name, save: Save, platform: Platform): Store {
    Last(Made(st, name, save, platform), st)
  }

  function After(st: Store, name: Name, saves: seq<Save>, platform: Platform): Store {
    if saves == [] then st
    else Next(After(st, name, saves[..|saves| - 1], platform), name, saves[|saves| - 1], platform)
  }

  // ---- The named file while it is replaced ------------------------------------------------------

  // The bytes of v in place after k writes.
  function Copied(v: seq<Byte>, k: nat): seq<Byte> {
    if COPY_BUFFER * k < |v| then v[..COPY_BUFFER * k] else v
  }

  // The named file after step k of a rename onto a free name.
  function Appearing(v: seq<Byte>, k: nat, platform: Platform): seq<Byte> {
    if platform == AtomicRename then v else Copied(v, k)
  }

  predicate Grows(steps: seq<Store>, name: Name, v: seq<Byte>, before: nat, platform: Platform) {
    forall i | 0 <= i < |steps| :: Lookup(steps[i].disk, name) == [Appearing(v, before + i, platform)]
  }

  lemma GrowsOneMore(steps: seq<Store>, rest: seq<Store>, name: Name, v: seq<Byte>, before: nat, platform: Platform)
    requires Grows(steps, name, v, before, platform) && Grows(rest, name, v, before + |steps|, platform)
    ensures Grows(steps + rest, name, v, before, platform)
  {
    var all := steps + rest;
    forall i | 0 <= i < |all|
      ensures Lookup(all[i].disk, name) == [Appearing(v, before + i, platform)]
    {
      if i >= |steps| {
        assert all[i] == rest[i - |steps|];
        assert before + i == (before + |steps|) + (i - |steps|);
      }
    }
  }

  lemma TargetGrows(data: seq<Byte>, pos: nat, next: nat, before: nat)
    requires pos == COPY_BUFFER * before < |data|
    requires next == if pos + COPY_BUFFER <= |data| then pos + COPY_BUFFER else |data|
    ensures data[..pos] + data[pos..next] == data[..next] == Copied(data, before + 1)
    ensures next == COPY_BUFFER * (before + 1) || next == |data| <= COPY_BUFFER * (before + 1)
  {
  }

  lemma {:induction false} CopyLoopReaches(st: Store, from: Name, to: Name, pos: nat)
    requires from in st.disk && to in st.disk && from != to && pos <= |st.disk[from]|
    ensures pos + COPY_BUFFER * |CopyLoop(st, from, to, pos)| >= |st.disk[from]|
    decreases |st.disk[from]| - pos
  {
    var data := st.disk[from];
    if pos < |data| {
      var next := if pos + COPY_BUFFER <= |data| then pos + COPY_BUFFER else |data|;
      CopyLoopReaches(Append(st, to, data[pos..next]), from, to, next);
    }
  }

  lemma CopyStep(st: Store, from: Name, to: Name, pos: nat, next: nat, before: nat)
    requires from in st.disk && to in st.disk && from != to
    requires pos == COPY_BUFFER * before < |st.disk[from]| && |st.disk[from]| - pos <= st.free
    requires next == if pos + COPY_BUFFER <= |st.disk[from]| then pos + COPY_BUFFER else |st.disk[from]|
    requires st.disk[to] == st.disk[from][..pos]
    ensures var data, st' := st.disk[from], Append(st, to, st.disk[from][pos..next]);
            && from in st'.disk && st'.disk[from] == data && |data| - next <= st'.free
            && to in st'.disk && st'.disk[to] == data[..next] == Copied(data, before + 1)
  {
    AppendedSlice(st, from, to, pos, next);
    TargetGrows(st.disk[from], pos, next, before);
  }

  lemma {:induction false} CopyLoopProgress(st: Store, from: Name, to: Name, pos: nat, before: nat, platform: Platform)
    requires from in st.disk && to in st.disk && from != to && pos <= |st.disk[from]|
    requires |st.disk[from]| - pos <= st.free && platform != AtomicRename
    requires pos == COPY_BUFFER * before || pos == |st.disk[from]| <= COPY_BUFFER * before
    requires st.disk[to] == st.disk[from][..pos]
    ensures Grows(CopyLoop(st, from, to, pos), to, st.disk[from], before + 1, platform)
    decreases |st.disk[from]| - pos
  {
    var data := st.disk[from];
    if pos < |data| {
      var next := if pos + COPY_BUFFER <= |data| then pos + COPY_BUFFER else |data|;
      var st' := Append(st, to, data[pos..next]);
      CopyStep(st, from, to, pos, next, before);
      CopyLoopProgress(st', from, to, next, before + 1, platform);
      GrowsOneMore([st'], CopyLoop(st', from, to, next), to, data, before + 1, platform);
    }
  }

  lemma CopyProgress(st: Store, from: Name, to: Name, platform: Platform, v: seq<Byte>)
    requires Lookup(st.disk, from) == [v] && to !in st.disk && |v| <= st.free && platform != AtomicRename
    ensures var loop := CopyLoop(Create(st, to), from, to, 0);
            Grows([Create(st, to)] + loop, to, v, 0, platform) && COPY_BUFFER * |loop| >= |v|
  {
    var st0 := Create(st, to);
    var loop := CopyLoop(st0, from, to, 0);
    CopyLoopProgress(st0, from, to, 0, 0, platform);
    CopyLoopReaches(st0, from, to, 0);
    assert Grows([st0], to, v, 0, platform);
    GrowsOneMore([st0], loop, to, v, 0, platform);
  }

  lemma CopyEnds(st: Store, from: Name, to: Name, v: seq<Byte>)
    requires Lookup(st.disk, from) == [v] && to !in st.disk && |v| <= st.free
    ensures var st0 := Create(st, to);
            Lookup(Remove(Last(CopyLoop(st0, from, to, 0), st0), from).disk, to) == [v]
  {
    var st0 := Create(st, to);
    CopyLoopFillsTarget(st0, from, to, 0);
    assert Room(st0, |v| - 0) == |v|;
    assert [] + v[0..|v|] == v;
    assert Last(CopyLoop(st0, from, to, 0), st0).disk[to] == v;
  }

  lemma StaysWhole(steps: seq<Store>, last: Store, name: Name, v: seq<Byte>, platform: Platform)
    requires Grows(steps, name, v, 0, platform) && Lookup(last.disk, name) == [v]
    requires COPY_BUFFER * |steps| >= |v|
    ensures Grows(steps + [last], name, v, 0, platform)
  {
    assert Copied(v, |steps|) == v;
    assert Grows([last], name, v, |steps|, platform);
    GrowsOneMore(steps, [last], name, v, 0, platform);
  }

  // A rename onto a free name makes v appear under it, whole or from the front.
  lemma RenameProgress(st: Store, name: Name, platform: Platform, luck: Luck, v: seq<Byte>)
    requires Lookup(st.disk, Tmp(name)) == [v] && name !in st.disk
    requires platform != AtomicRename ==> |v| <= st.free
    ensures Grows(RenameFile(st, Tmp(name), name, platform, luck).0, name, v, 0, platform)
  {
    assert Tmp(name) != name;
    if platform != AtomicRename && luck.openSource && luck.openTarget {
      var st0 := Create(st, name);
      var loop := CopyLoop(st0, Tmp(name), name, 0);
      CopyProgress(st, Tmp(name), name, platform, v);
      CopyEnds(st, Tmp(name), name, v);
      LastOfStep(st, st0, loop);
      StaysWhole([st0] + loop, Remove(Last(loop, st0), Tmp(name)), name, v, platform);
    }
  }

  // The named file after step k of a close: gone where it existed, then appearing.
  function Named(k: nat, existed: bool, v: seq<Byte>, platform: Platform): seq<seq<Byte>> {
    if !existed then [Appearing(v, k, platform)]
    else if k == 0 then []
    else [Appearing(v, k - 1, platform)]
  }

  lemma CloseProgress(st: Store, name: Name, hash: Byte, lfsFailed: bool, platform: Platform, luck: Luck, v: seq<Byte>)
    requires Lookup(st.disk, Tmp(name)) == [v]
    requires platform != AtomicRename ==> Fits(st, name, v)
    ensures var steps := CloseSteps(st, name, true, true, hash, lfsFailed, platform, luck).0;
            && (forall k | 0 <= k < |steps| :: Lookup(steps[k].disk, name) == Named(k, name in st.disk, v, platform))
            && (steps != [] ==> XorAll(v) == hash && !lfsFailed)
  {
    assert Tmp(name) != name;
    if TestReadback(st, name, hash, lfsFailed, luck) {
      if name !in st.disk {
        RenameProgress(st, name, platform, luck, v);
      } else if luck.removeOld {
        RenameProgress(Remove(st, name), name, platform, luck, v);
      }
    }
  }

  // ---- One save, cut anywhere -------------------------------------------------------------------

  // The steps before close: opening the temporary file, then the writes.
  function Preparations(save: Save): nat {
    if save.luck.openTmp then 1 + |save.chunks| else 0
  }

  // The bytes the temporary file holds when close begins.
  function Saved(st: Store, name: Name, save: Save, platform: Platform): seq<Byte> {
    if save.luck.openTmp then Written(st, name, true, save.chunks, platform, save.luck) else []
  }

  predicate Roomy(st: Store, name: Name, save: Save, platform: Platform) {
    platform != AtomicRename ==>
      2 * |Saved(st, name, save, platform)| <= st.free + Size(st, name) + Size(st, Tmp(name))
  }

  // The steps close has made when the save is over or cut.
  function Closed(st: Store, name: Name, save: Save, platform: Platform): nat {
    Beyond(|Made(st, name, save, platform)|, Preparations(save))
  }

  function Beyond(made: nat, prep: nat): nat {
    if made <= prep then 0 else made - prep
  }

  lemma {:induction false} WritesAreCounted(st: Store, name: Name, chunks: seq<Chunk>)
    requires Tmp(name) in st.disk
    ensures |WriteSteps(st, name, chunks)| == |chunks|
  {
    if chunks != [] {
      WritesAreCounted(st, name, chunks[..|chunks| - 1]);
    }
  }

  predicate Untouched(steps: seq<Store>, name: Name, before: Disk) {
    forall i | 0 <= i < |steps| :: Lookup(steps[i].disk, name) == Lookup(before, name)
  }

  lemma UntouchedBefore(st: Store, name: Name, save: Save, platform: Platform)
    requires save.luck.openTmp
    ensures var st1 := Open(st, Tmp(name), platform);
            Tmp(name) in st1.disk &&
            var prep := [st1] + WriteSteps(st1, name, save.chunks);
            Untouched(prep, name, st.disk) && |prep| == Preparations(save)
  {
    assert Tmp(name) != name;
    var st1 := Open(st, Tmp(name), platform);
    WritesTouchOnlyTmp(st1, name, save.chunks);
    WritesAreCounted(st1, name, save.chunks);
  }

  lemma RoomBefore(st: Store, name: Name, save: Save, platform: Platform)
    requires save.luck.openTmp
    ensures var st2 := BeforeClose(st, name, true, save.chunks, platform, save.luck);
            st2.free + |Saved(st, name, save, platform)| == st.free + Size(st, Tmp(name))
  {
    var st1 := Open(st, Tmp(name), platform);
    OpenedTmpIsStale(st, name, true, platform, save.luck);
    WritesTouchOnlyTmp(st1, name, save.chunks);
  }

  // The steps of a save, the named file before close and the temporary file then.
  lemma SaveInParts(st: Store, name: Name, save: Save, platform: Platform)
    returns (prep: seq<Store>, st2: Store, closing: seq<Store>)
    requires save.luck.openTmp
    ensures Steps(st, name, save, platform) == prep + closing && |prep| == Preparations(save)
    ensures Untouched(prep, name, st.disk) && Lookup(st2.disk, name) == Lookup(st.disk, name)
    ensures Lookup(st2.disk, Tmp(name)) == [Saved(st, name, save, platform)]
    ensures st2.free + |Saved(st, name, save, platform)| == st.free + Size(st, Tmp(name))
    ensures closing == CloseSteps(st2, name, true, true, XorAll(Intended(save.chunks)), save.lfsFailed,
                                  platform, save.luck).0
  {
    assert Tmp(name) != name;
    UntouchedBefore(st, name, save, platform);
    RoomBefore(st, name, save, platform);
    DiskBeforeClose(st, name, true, save.chunks, platform, save.luck);
    OpenedTmpIsStale(st, name, true, platform, save.luck);
    var st1 := Open(st, Tmp(name), platform);
    prep := [st1] + WriteSteps(st1, name, save.chunks);
    st2 := BeforeClose(st, name, true, save.chunks, platform, save.luck);
    closing := CloseSteps(st2, name, true, true, XorAll(Intended(save.chunks)), save.lfsFailed, platform, save.luck).0;
  }

  // The named file once close has made this many steps.
  function NamedFile(closed: nat, before: seq<seq<Byte>>, v: seq<Byte>, platform: Platform): seq<seq<Byte>> {
    if closed == 0 then before else Named(closed - 1, before != [], v, platform)
  }

  lemma NamedAtTheCut(prep: seq<Store>, closing: seq<Store>, cut: nat, st: Store, name: Name,
                      v: seq<Byte>, platform: Platform)
    requires Untouched(prep, name, st.disk)
    requires forall k | 0 <= k < |closing| :: Lookup(closing[k].disk, name) == Named(k, name in st.disk, v, platform)
    ensures var made := Cut(prep + closing, cut);
            && Lookup(Last(made, st).disk, name) ==
                 NamedFile(Beyond(|made|, |prep|), Lookup(st.disk, name), v, platform)
            && (Beyond(|made|, |prep|) > 0 ==> closing != [])
  {
    var made := Cut(prep + closing, cut);
    if 0 < |made| <= |prep| {
      assert made[|made| - 1] == prep[|made| - 1];
    } else if |made| > |prep| {
      assert made[|made| - 1] == closing[|made| - 1 - |prep|];
    }
  }

  // The named file is untouched until close makes its first step, and that it makes only with
  // verified bytes at hand.
  lemma NamedFileAfterSave(st: Store, name: Name, save: Save, platform: Platform)
    requires Roomy(st, name, save, platform)
    ensures Lookup(Next(st, name, save, platform).disk, name) ==
            NamedFile(Closed(st, name, save, platform), Lookup(st.disk, name),
                      Saved(st, name, save, platform), platform)
    ensures Closed(st, name, save, platform) > 0 ==>
              XorAll(Saved(st, name, save, platform)) == XorAll(Intended(save.chunks)) && !save.lfsFailed
  {
    if save.luck.openTmp {
      var v := Saved(st, name, save, platform);
      var prep, st2, closing := SaveInParts(st, name, save, platform);
      assert name in st2.disk <==> name in st.disk;
      CloseProgress(st2, name, XorAll(Intended(save.chunks)), save.lfsFailed, platform, save.luck, v);
      NamedAtTheCut(prep, closing, save.cut, st, name, v, platform);
    }
  }

  // ---- Saves in a row ---------------------------------------------------------------------------

  // The cut falls between the removal of the old file and the last byte of the new one.
  predicate Exposed(st: Store, name: Name, save: Save, platform: Platform) {
    var closed, removal := Closed(st, name, save, platform), if name in st.disk then 1 else 0;
    closed > 0 && (closed <= removal || (platform != AtomicRename &&
      COPY_BUFFER * (closed - 1 - removal) < |Saved(st, name, save, platform)|))
  }

  lemma WholeExactly(closed: nat, before: seq<seq<Byte>>, v: seq<Byte>, platform: Platform)
    requires closed > 0
    ensures var removal := if before != [] then 1 else 0;
            NamedFile(closed, before, v, platform) == [v] <==>
            closed > removal && (platform == AtomicRename || COPY_BUFFER * (closed - 1 - removal) >= |v|)
  {
  }

  // A save that close has begun to put in place leaves its bytes whole under the name exactly when
  // its end is not exposed.
  lemma InPlaceExactly(st: Store, name: Name, save: Save, platform: Platform)
    requires Roomy(st, name, save, platform) && Closed(st, name, save, platform) > 0
    ensures Lookup(Next(st, name, save, platform).disk, name) == [Saved(st, name, save, platform)] <==>
            !Exposed(st, name, save, platform)
  {
    NamedFileAfterSave(st, name, save, platform);
    WholeExactly(Closed(st, name, save, platform), Lookup(st.disk, name), Saved(st, name, save, platform), platform);
  }

  // The store before save k.
  function Before(st: Store, name: Name, saves: seq<Save>, platform: Platform, k: nat): Store
    requires k <= |saves|
  {
    After(st, name, saves[..k], platform)
  }

  // What the named file should hold: the bytes of the last save that close began to put in place.
  function Current(st: Store, name: Name, saves: seq<Save>, platform: Platform): seq<seq<Byte>> {
    if saves == [] then Lookup(st.disk, name)
    else
      var front, last := saves[..|saves| - 1], saves[|saves| - 1];
      var before := After(st, name, front, platform);
      if Closed(before, name, last, platform) == 0 then Current(st, name, front, platform)
      else [Saved(before, name, last, platform)]
  }

  ghost predicate AllRoomy(st: Store, name: Name, saves: seq<Save>, platform: Platform) {
    forall k | 0 <= k < |saves| :: Roomy(Before(st, name, saves, platform, k), name, saves[k], platform)
  }

  ghost predicate NoneExposed(st: Store, name: Name, saves: seq<Save>, platform: Platform) {
    forall k | 0 <= k < |saves| :: !Exposed(Before(st, name, saves, platform, k), name, saves[k], platform)
  }

  lemma FrontOfRun(st: Store, name: Name, saves: seq<Save>, platform: Platform)
    requires saves != [] && AllRoomy(st, name, saves, platform)
    ensures AllRoomy(st, name, saves[..|saves| - 1], platform)
    ensures NoneExposed(st, name, saves, platform) ==> NoneExposed(st, name, saves[..|saves| - 1], platform)
    ensures Before(st, name, saves, platform, |saves| - 1) == After(st, name, saves[..|saves| - 1], platform)
  {
    var front := saves[..|saves| - 1];
    forall k | 0 <= k < |front|
      ensures Before(st, name, front, platform, k) == Before(st, name, saves, platform, k) && front[k] == saves[k]
    {
      assert front[..k] == saves[..k];
    }
  }

  // However many saves follow each other and wherever power fails, short of the exposed steps: the
  // named file is whole, and holds what the last save to pass its readback wrote.
  lemma {:induction false} NamedFileSurvives(st: Store, name: Name, saves: seq<Save>, platform: Platform)
    requires AllRoomy(st, name, saves, platform) && NoneExposed(st, name, saves, platform)
    ensures Lookup(After(st, name, saves, platform).disk, name) == Current(st, name, saves, platform)
  {
    if saves != [] {
      var k := |saves| - 1;
      FrontOfRun(st, name, saves, platform);
      NamedFileSurvives(st, name, saves[..k], platform);
      var before := After(st, name, saves[..k], platform);
      assert before == Before(st, name, saves, platform, k);
      NamedFileAfterSave(before, name, saves[k], platform);
      if Closed(before, name, saves[k], platform) > 0 {
        InPlaceExactly(before, name, saves[k], platform);
      }
    }
  }

  // The store once the next save has opened its temporary file.
  function Reopened(st: Store, name: Name, save: Save, platform: Platform): Store {
    Open(Next(st, name, save, platform), Tmp(name), platform)
  }

  // An exposed end is safe only until the next save begins: opening empties the temporary file, so
  // the verified bytes are whole under neither name, and the old file is gone. Any other end keeps
  // them. LaterSavesPassExactly below says what happens where opening appends.
  lemma NextSaveKeepsExactly(st: Store, name: Name, save: Save, platform: Platform)
    requires Roomy(st, name, save, platform) && Closed(st, name, save, platform) > 0
    requires platform != CopyAndAppend && Saved(st, name, save, platform) != []
    ensures var v, disk := Saved(st, name, save, platform), Reopened(st, name, save, platform).disk;
            && (Lookup(disk, name) == [v] || Lookup(disk, Tmp(name)) == [v] <==> !Exposed(st, name, save, platform))
            && (Exposed(st, name, save, platform) ==> Lookup(disk, name) == [] || (Lookup(disk, name)[0] < v))
  {
    assert Tmp(name) != name;
    NamedFileAfterSave(st, name, save, platform);
    InPlaceExactly(st, name, save, platform);
  }

  // ---- Where opening appends --------------------------------------------------------------------

  // The temporary file, if it is there, begins with w.
  predicate InFront(d: Disk, name: Name, w: seq<Byte>) {
    Tmp(name) in d ==> w <= d[Tmp(name)]
  }

  predicate AllInFront(steps: seq<Store>, name: Name, w: seq<Byte>) {
    forall i | 0 <= i < |steps| :: InFront(steps[i].disk, name, w)
  }

  lemma {:induction false} WritesKeepFront(st: Store, name: Name, chunks: seq<Chunk>, w: seq<Byte>)
    requires Tmp(name) in st.disk && w <= st.disk[Tmp(name)]
    ensures AllInFront(WriteSteps(st, name, chunks), name, w)
    ensures w <= Last(WriteSteps(st, name, chunks), st).disk[Tmp(name)]
  {
    if chunks != [] {
      WritesKeepFront(st, name, chunks[..|chunks| - 1], w);
    }
  }

  lemma RenameKeepsFront(st: Store, name: Name, platform: Platform, luck: Luck, w: seq<Byte>)
    requires Tmp(name) in st.disk && w <= st.disk[Tmp(name)]
    ensures AllInFront(RenameFile(st, Tmp(name), name, platform, luck).0, name, w)
  {
    assert Tmp(name) != name;
    if platform != AtomicRename && luck.openSource && luck.openTarget {
      var st0 := Open(st, name, platform);
      CopyLoopKeepsSource(st0, Tmp(name), name, 0);
      LastOfStep(st, st0, CopyLoop(st0, Tmp(name), name, 0));
    }
  }

  lemma CloseKeepsFront(st: Store, name: Name, hash: Byte, lfsFailed: bool, platform: Platform, luck: Luck,
                        w: seq<Byte>)
    requires Tmp(name) in st.disk && w <= st.disk[Tmp(name)]
    ensures AllInFront(CloseSteps(st, name, true, true, hash, lfsFailed, platform, luck).0, name, w)
  {
    assert Tmp(name) != name;
    if TestReadback(st, name, hash, lfsFailed, luck) {
      if name !in st.disk {
        RenameKeepsFront(st, name, platform, luck, w);
      } else if luck.removeOld {
        RenameKeepsFront(Remove(st, name), name, platform, luck, w);
      }
    }
  }

  lemma AllInFrontAppend(a: seq<Store>, b: seq<Store>, name: Name, w: seq<Byte>)
    requires AllInFront(a, name, w) && AllInFront(b, name, w)
    ensures AllInFront(a + b, name, w)
  {
  }

  lemma CutKeepsFront(st: Store, steps: seq<Store>, cut: nat, name: Name, w: seq<Byte>)
    requires InFront(st.disk, name, w) && AllInFront(steps, name, w)
    ensures InFront(Last(Cut(steps, cut), st).disk, name, w)
  {
  }

  // A later save goes on behind what is there, wherever it is cut.
  lemma NextKeepsFront(st: Store, name: Name, save: Save, w: seq<Byte>)
    requires Tmp(name) in st.disk && w <= st.disk[Tmp(name)]
    ensures InFront(Next(st, name, save, CopyAndAppend).disk, name, w)
  {
    if save.luck.openTmp {
      OpenedTmpIsStale(st, name, true, CopyAndAppend, save.luck);
      var written := WriteSteps(st, name, save.chunks);
      var st2, hash := Last(written, st), XorAll(Intended(save.chunks));
      WritesKeepFront(st, name, save.chunks, w);
      CloseKeepsFront(st2, name, hash, save.lfsFailed, CopyAndAppend, save.luck, w);
      var closing := CloseSteps(st2, name, true, true, hash, save.lfsFailed, CopyAndAppend, save.luck).0;
      AllInFrontAppend([st], written, name, w);
      AllInFrontAppend([st] + written, closing, name, w);
      assert Steps(st, name, save, CopyAndAppend) == [st] + written + closing;
      CutKeepsFront(st, Steps(st, name, save, CopyAndAppend), save.cut, name, w);
    }
  }

  // The bytes that a save verified, if its temporary file is still there when it ends.
  lemma VerifiedAreInFront(st: Store, name: Name, save: Save, platform: Platform)
    requires Closed(st, name, save, platform) > 0
    ensures InFront(Next(st, name, save, platform).disk, name, Saved(st, name, save, platform))
  {
    var v, made := Saved(st, name, save, platform), Made(st, name, save, platform);
    assert save.luck.openTmp;
    var prep, st2, closing := SaveInParts(st, name, save, platform);
    CloseKeepsFront(st2, name, XorAll(Intended(save.chunks)), save.lfsFailed, platform, save.luck, v);
    assert made[|made| - 1] == closing[|made| - |prep| - 1];
  }

  // No save of the run has taken the temporary file away.
  ghost predicate TmpStays(st: Store, name: Name, saves: seq<Save>) {
    forall k | 0 <= k <= |saves| :: Tmp(name) in Before(st, name, saves, CopyAndAppend, k).disk
  }

  lemma {:induction false} StaysInFront(st: Store, name: Name, saves: seq<Save>, w: seq<Byte>)
    requires InFront(st.disk, name, w) && TmpStays(st, name, saves)
    ensures Tmp(name) in After(st, name, saves, CopyAndAppend).disk
    ensures w <= After(st, name, saves, CopyAndAppend).disk[Tmp(name)]
  {
    assert saves[..|saves|] == saves && saves[..0] == [];
    assert Tmp(name) in Before(st, name, saves, CopyAndAppend, |saves|).disk;
    if saves == [] {
      assert Tmp(name) in Before(st, name, saves, CopyAndAppend, 0).disk;
    } else {
      var front := saves[..|saves| - 1];
      forall k | 0 <= k <= |front|
        ensures Tmp(name) in Before(st, name, front, CopyAndAppend, k).disk
      {
        assert front[..k] == saves[..k];
        assert Tmp(name) in Before(st, name, saves, CopyAndAppend, k).disk;
      }
      StaysInFront(st, name, front, w);
      NextKeepsFront(After(st, name, front, CopyAndAppend), name, saves[|saves| - 1], w);
    }
  }

  // Where opening appends, bytes once verified and not taken away stay in front of every later
  // save. Such a save, faithful and lucky as it may be, passes if and only if what stands in front
  // has hash zero, and then puts it in place in front of its own bytes.
  lemma LaterSavesPassExactly(st: Store, name: Name, save: Save, saves: seq<Save>, chunks: seq<Chunk>)
    requires Closed(st, name, save, CopyAndAppend) > 0
    requires TmpStays(Next(st, name, save, CopyAndAppend), name, saves) && Kept(chunks) == Intended(chunks)
    requires var now := After(Next(st, name, save, CopyAndAppend), name, saves, CopyAndAppend);
             |Stale(now, name, CopyAndAppend)| + 2 * |Kept(chunks)| <= now.free
    ensures var now := After(Next(st, name, save, CopyAndAppend), name, saves, CopyAndAppend);
            var front, (steps, ok) := Stale(now, name, CopyAndAppend),
                                      SaveSteps(now, name, true, chunks, false, CopyAndAppend, FORTUNE);
            && Saved(st, name, save, CopyAndAppend) <= front
            && (ok <==> XorAll(front) == 0)
            && (ok ==> Lookup(Last(steps, now).disk, name) == [front + Intended(chunks)])
  {
    var next := Next(st, name, save, CopyAndAppend);
    var now := After(next, name, saves, CopyAndAppend);
    VerifiedAreInFront(st, name, save, CopyAndAppend);
    StaysInFront(next, name, saves, Saved(st, name, save, CopyAndAppend));
    FaithfulSaveSucceeds(now, name, true, chunks, CopyAndAppend);
  }
}
