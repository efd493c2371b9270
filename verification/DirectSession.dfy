/** The in-process session object: three maps that every call updates in place. */
module DirectSession {
  import opened Bytes
  import opened SystemCalls
  import opened Sessions

  class SessionDirect {
    const id: nat
    const description: Text
    const kernel: Kernel
    var pathMap: map<nat, Text>
    var pathFdMap: map<nat, int>
    var entryListMap: map<nat, seq<EntryMapping>>

    constructor (kernel: Kernel, id: nat, description: Text)
      ensures this.kernel == kernel && this.id == id && Abs() == Fresh(id, description)
    {
      this.kernel, this.id, this.description := kernel, id, description;
      pathMap, pathFdMap, entryListMap := map[], map[], map[];
    }

    ghost function Abs(): Session
      reads this
    {
      Session(id, description, pathMap, pathFdMap, entryListMap)
    }

    method RegisterFilePath(pathId: nat, filePath: Text) returns (ok: bool)
      modifies this, kernel
      ensures Outcome(Abs(), kernel.log, ok) == Register(old(Abs()), old(kernel.log), kernel.env, pathId, filePath)
    {
      var owner := Owner(id, pathId);
      var fd := kernel.Invoke(owner, OpenFile(filePath));
      if fd < 0 {
        fd := -1;
      }
      if pathId !in pathMap {
        pathMap := pathMap[pathId := filePath];
      }
      if pathId !in pathFdMap {
        pathFdMap := pathFdMap[pathId := fd];
      } else if 0 <= fd {
        kernel.Abandon(owner, fd);
      }
      // DCHECK(entry_list_map_[path_id].empty()), for its effect on the map.
      if kernel.env.dchecks && pathId !in entryListMap {
        entryListMap := entryListMap[pathId := []];
      }
      return true;
    }

    method UnregisterFilePath(pathId: nat) returns (ok: bool)
      modifies this, kernel
      ensures Outcome(Abs(), kernel.log, ok) == Unregister(old(Abs()), old(kernel.log), kernel.env, pathId)
    {
      if pathId !in pathMap {
        return false;
      }
      pathMap := pathMap - {pathId};
      var owner := Owner(id, pathId);
      var list := if pathId in entryListMap then entryListMap[pathId] else [];
      for i := 0 to |list|
        invariant unchanged(`pathFdMap) && unchanged(`entryListMap)
        invariant pathMap == old(pathMap) - {pathId}
        invariant kernel.log == UnmapAll(old(kernel.log), kernel.env, owner, list[..i])
      {
        assert list[..i + 1][..i] == list[..i];
        if Maps(list[i].entry.kind) {
          var _ := kernel.Invoke(owner, Munmap(list[i].address, list[i].entry.length));
        }
      }
      assert list[..|list|] == list;
      entryListMap := entryListMap - {pathId};
      if pathId in pathFdMap && 0 <= pathFdMap[pathId] {
        var _ := kernel.Invoke(owner, Close(pathFdMap[pathId]));
      }
      pathFdMap := pathFdMap - {pathId};
      return true;
    }

    method ReadAhead(pathId: nat, kind: nat, length: nat, offset: nat) returns (ok: bool)
      modifies this, kernel
      ensures Outcome(Abs(), kernel.log, ok) ==
              Sessions.ReadAhead(old(Abs()), old(kernel.log), kernel.env, pathId, kind, length, offset)
    {
      if pathId !in entryListMap {
        entryListMap := entryListMap[pathId := []];
      }
      var owner, mapping := Owner(id, pathId), EntryMapping(Entry(pathId, kind, length, offset), NULL, false);
      if pathId !in pathFdMap {
        return false;
      }
      var fd := pathFdMap[pathId];
      if fd < 0 {
        entryListMap := entryListMap[pathId := entryListMap[pathId] + [mapping]];
        return false;
      }
      var success := true;
      if kind == FADVISE {
        var result := kernel.Invoke(owner, Fadvise(fd, offset, length));
        success := result >= 0;
      } else if kind == MMAP_LOCKED || kind == MLOCK {
        var needMlock := kind == MLOCK;
        var address := kernel.Invoke(owner, Mmap(fd, length, offset, !needMlock));
        mapping := mapping.(address := address);
        if address == NULL {
          success := false;
        } else if needMlock {
          var result := kernel.Invoke(owner, Mlock(address, length));
          success := result >= 0;
        }
      }
      mapping := mapping.(success := success);
      entryListMap := entryListMap[pathId := entryListMap[pathId] + [mapping]];
      return success;
    }

    // Registers every file of the trace behind the descriptor, then reads every range ahead.
    method ProcessFd(fd: int) returns (ok: bool)
      modifies this, kernel
      ensures Outcome(Abs(), kernel.log, ok) == Sessions.ProcessFd(old(Abs()), old(kernel.log), kernel.env, fd)
    {
      var file := kernel.env.trace(kernel.log, fd);
      if file.None? {
        return false;
      }
      var index, list := file.value.index, file.value.list;
      for i := 0 to |index|
        invariant Outcome(Abs(), kernel.log, true) ==
                  RegisterAll(old(Abs()), old(kernel.log), kernel.env, index[..i])
      {
        assert index[..i + 1][..i] == index[..i];
        if index[i].id >= 0 {
          var _ := RegisterFilePath(index[i].id, index[i].fileName);
        }
      }
      assert index[..|index|] == index;
      ghost var start, startLog := Abs(), kernel.log;
      for i := 0 to |list|
        invariant Outcome(Abs(), kernel.log, true) == ReadAheadAll(start, startLog, kernel.env, FADVISE, list[..i])
      {
        assert list[..i + 1][..i] == list[..i];
        if Legal(list[i]) {
          var _ := ReadAhead(AsSize(list[i].indexId), FADVISE, list[i].fileLength, list[i].fileOffset);
        }
      }
      assert list[..|list|] == list;
      return true;
    }

    // The destructor, and the maps' own destructors after it.
    method Destroy()
      modifies this, kernel
      ensures kernel.log == Sessions.Destroy(old(Abs()), old(kernel.log), kernel.env)
    {
      var ids := kernel.env.order(kernel.log, entryListMap.Keys);
      ghost var ok := true;
      for i := 0 to |ids|
        invariant Outcome(Abs(), kernel.log, ok) == UnregisterAll(old(Abs()), old(kernel.log), kernel.env, ids[..i])
      {
        assert ids[..i + 1][..i] == ids[..i];
        ok := UnregisterFilePath(ids[i]);
      }
      assert ids[..|ids|] == ids;
      ghost var left, leftLog := Abs(), kernel.log;
      var rest := kernel.env.order(kernel.log, pathFdMap.Keys);
      for i := 0 to |rest|
        invariant Abs() == left && kernel.log == CloseAll(left, leftLog, kernel.env, rest[..i])
      {
        assert rest[..i + 1][..i] == rest[..i];
        if rest[i] in pathFdMap && 0 <= pathFdMap[rest[i]] {
          var _ := kernel.Invoke(Owner(id, rest[i]), Close(pathFdMap[rest[i]]));
        }
      }
      assert rest[..|rest|] == rest;
    }
  }
}
