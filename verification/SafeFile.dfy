// The SafeFile object and the file system it works on, proved against FileSteps.
module SafeFile {
  import opened FileSteps

  class FileSystem {
    var store: Store
    var lfsAssertFailed: bool
    ghost var trace: seq<Store>   // the store after every call that touched it: the crash points

    constructor (store: Store)
      ensures this.store == store && trace == [] && !lfsAssertFailed
    {
      this.store, trace, lfsAssertFailed := store, [], false;
    }

    method Apply(next: Store)
      modifies `store, `trace
      ensures store == next && trace == old(trace) + [next]
    {
      store := next;
      trace := trace + [next];
    }
  }

  // The chunk loop of copyFile, through a 16-byte buffer. Write results are ignored.
  method CopyLoopMethod(fs: FileSystem, from: Name, to: Name)
    requires from in fs.store.disk && to in fs.store.disk && from != to
    modifies fs`store, fs`trace
    ensures fs.trace == old(fs.trace) + CopyLoop(old(fs.store), from, to, 0)
    ensures fs.store == Last(CopyLoop(old(fs.store), from, to, 0), old(fs.store))
  {
    var pos := 0;
    ghost var done: seq<Store> := [];
    while pos < |fs.store.disk[from]|
      invariant from in fs.store.disk && to in fs.store.disk && pos <= |fs.store.disk[from]|
      invariant fs.trace == old(fs.trace) + done
      invariant fs.store == Last(done, old(fs.store))
      invariant CopyLoop(old(fs.store), from, to, 0) == done + CopyLoop(fs.store, from, to, pos)
      decreases |fs.store.disk[from]| - pos
    {
      var data := fs.store.disk[from];
      var next := if pos + COPY_BUFFER <= |data| then pos + COPY_BUFFER else |data|;
      ghost var before, rest := fs.store, CopyLoop(Append(fs.store, to, data[pos..next]), from, to, next);
      assert CopyLoop(before, from, to, pos) == [Append(before, to, data[pos..next])] + rest;
      fs.Apply(Append(fs.store, to, data[pos..next]));
      ghost var earlier := done;
      done := done + [fs.store];
      assert earlier + ([fs.store] + rest) == done + rest;
      pos := next;
    }
  }

  method CopyFileMethod(fs: FileSystem, from: Name, to: Name, platform: Platform, luck: Luck) returns (ok: bool)
    requires from != to
    modifies fs`store, fs`trace
    ensures var (steps, r) := CopyFile(old(fs.store), from, to, platform, luck);
            ok == r && fs.trace == old(fs.trace) + steps && fs.store == Last(steps, old(fs.store))
  {
    if !(luck.openSource && from in fs.store.disk) { return false; }
    if !luck.openTarget { return false; }
    ghost var before := fs.store;
    fs.Apply(Open(fs.store, to, platform));
    ghost var st0 := fs.store;
    CopyLoopMethod(fs, from, to);
    assert Last([st0] + CopyLoop(st0, from, to, 0), before) == Last(CopyLoop(st0, from, to, 0), st0);
    return true;
  }

  method RenameFileMethod(fs: FileSystem, from: Name, to: Name, platform: Platform, luck: Luck) returns (ok: bool)
    requires from != to
    modifies fs`store, fs`trace
    ensures var (steps, r) := RenameFile(old(fs.store), from, to, platform, luck);
            ok == r && fs.trace == old(fs.trace) + steps && fs.store == Last(steps, old(fs.store))
  {
    if platform == AtomicRename {
      ok := luck.rename && from in fs.store.disk;
      if ok { fs.Apply(Rename(fs.store, from, to)); }
    } else {
      ok := CopyFileMethod(fs, from, to, platform, luck);
      if ok {
        ok := luck.removeSource && from in fs.store.disk;
        if ok { fs.Apply(Remove(fs.store, from)); }
      }
    }
  }

  class SafeFile {
    const fs: FileSystem
    const filename: Name
    const fullAtomic: bool
    const platform: Platform
    const luck: Luck
    var isOpen: bool
    var hash: Byte

    constructor (fs: FileSystem, filename: Name, fullAtomic: bool, platform: Platform, luck: Luck)
      modifies fs
      ensures this.fs == fs && this.filename == filename && this.fullAtomic == fullAtomic
      ensures this.platform == platform && this.luck == luck
      ensures isOpen == luck.openTmp && hash == 0 && !fs.lfsAssertFailed
      ensures fs.trace == old(fs.trace) + OpenSteps(old(fs.store), filename, fullAtomic, platform, luck)
      ensures fs.store == Last(OpenSteps(old(fs.store), filename, fullAtomic, platform, luck), old(fs.store))
    {
      this.fs, this.filename, this.fullAtomic, this.platform, this.luck := fs, filename, fullAtomic, platform, luck;
      isOpen, hash := luck.openTmp, 0;
      new;
      if !fullAtomic {
        fs.Apply(Remove(fs.store, filename));
      }
      fs.lfsAssertFailed := false;
      if luck.openTmp {
        fs.Apply(Open(fs.store, Tmp(filename), platform));
      }
    }

    // The hash takes what was handed over; the medium keeps what it keeps.
    method Write(buffer: seq<Byte>, kept: seq<Byte>, asserts: bool)
      requires isOpen ==> Tmp(filename) in fs.store.disk
      modifies this`hash, fs
      ensures fs.lfsAssertFailed == (old(fs.lfsAssertFailed) || (isOpen && asserts))
      ensures if isOpen then
                && hash == old(hash) ^ XorAll(buffer)
                && fs.store == Append(old(fs.store), Tmp(filename), kept) && fs.trace == old(fs.trace) + [fs.store]
              else hash == old(hash) && fs.store == old(fs.store) && fs.trace == old(fs.trace)
    {
      if !isOpen { return; }
      for i := 0 to |buffer|
        invariant hash == old(hash) ^ XorAll(buffer[..i])
        modifies this`hash
      {
        assert buffer[..i + 1][..i] == buffer[..i];
        XorAssociates(old(hash), XorAll(buffer[..i]), buffer[i]);
        hash := hash ^ buffer[i];
      }
      assert buffer[..|buffer|] == buffer;
      if asserts { fs.lfsAssertFailed := true; }
      fs.Apply(Append(fs.store, Tmp(filename), kept));
    }

    method ReadbackOk() returns (ok: bool)
      modifies fs`lfsAssertFailed
      ensures ok == TestReadback(fs.store, filename, hash, old(fs.lfsAssertFailed), luck)
    {
      var lfsFailed := fs.lfsAssertFailed;
      fs.lfsAssertFailed := false;
      if !(luck.readback && Tmp(filename) in fs.store.disk) { return false; }
      var content := fs.store.disk[Tmp(filename)];
      var testHash: Byte := 0;
      for i := 0 to |content|
        invariant testHash == XorAll(content[..i])
      {
        assert content[..i + 1][..i] == content[..i];
        testHash := testHash ^ content[i];
      }
      assert content[..|content|] == content;
      if testHash != hash { return false; }
      return !lfsFailed;
    }

    method Close() returns (ok: bool)
      modifies this`isOpen, fs
      ensures var (steps, r) := CloseSteps(old(fs.store), filename, fullAtomic, old(isOpen), hash,
                                           old(fs.lfsAssertFailed), platform, luck);
              ok == r && fs.trace == old(fs.trace) + steps && fs.store == Last(steps, old(fs.store))
    {
      assert Tmp(filename) != filename;
      if !isOpen { return false; }
      isOpen := false;
      var good := ReadbackOk();
      if !good { return false; }
      if fullAtomic && filename in fs.store.disk {
        if !luck.removeOld { return false; }
        ghost var before := fs.store;
        fs.Apply(Remove(fs.store, filename));
        ghost var st1 := fs.store;
        ok := RenameFileMethod(fs, Tmp(filename), filename, platform, luck);
        ghost var steps := RenameFile(st1, Tmp(filename), filename, platform, luck).0;
        assert Last([st1] + steps, before) == Last(steps, st1);
      } else {
        ok := RenameFileMethod(fs, Tmp(filename), filename, platform, luck);
      }
    }
  }
}
