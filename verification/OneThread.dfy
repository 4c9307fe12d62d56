/** The class behind `main.c` and the jobs of the interleaved threads: a thread that is
    alone gets from the one exactly what the other says. */
module OneThread {
  import opened Bytes
  import opened PacketSpec
  import opened CriticalSection
  import opened Threads
  import opened Interleaving
  import D = Device

  /** What a call does alone. */
  ghost predicate Serially(a: Abs, fpos: int, call: Call, past: seq<nat>, a': Abs, fpos': int, result: Result) {
    (a', result, fpos') == SerialCall(a, call, past, fpos)
  }

  /** `aesd_read`, through the class. */
  method PerformRead(dev: D.Device, file: D.File, count: nat, past: seq<nat>) returns (result: Result)
    requires dev.Valid() && !dev.locked
    modifies dev`locked, dev`readEntry, dev.buffer`outOffs, file
    ensures dev.Valid() && !dev.locked
    ensures Serially(old(dev.Abs()), old(file.fpos), ReadCall, past, dev.Abs(), file.fpos, result)
  {
    var retval, copied := dev.Read(file, count, D.Fine);
    result := Result(retval, copied[..retval]);
  }

  /** `aesd_write`, through the class. */
  method PerformWrite(dev: D.Device, file: D.File, data: seq<byte>, past: seq<nat>) returns (result: Result)
    requires dev.Valid() && !dev.locked && data != []
    modifies dev, dev.buffer, dev.buffer.entry, dev.slab, file
    ensures dev.Valid() && !dev.locked
    ensures Serially(old(dev.Abs()), old(file.fpos), WriteCall(data), past, dev.Abs(), file.fpos, result)
  {
    ghost var a, fpos := dev.Abs(), file.fpos;
    result := WriteFine(dev, file, data);
    assert Serially(a, fpos, WriteCall(data), past, dev.Abs(), file.fpos, result);
  }

  method WriteFine(dev: D.Device, file: D.File, data: seq<byte>) returns (result: Result)
    requires dev.Valid() && !dev.locked && data != []
    modifies dev, dev.buffer, dev.buffer.entry, dev.slab, file
    ensures dev.Valid() && !dev.locked && result == Result(|data|, [])
    ensures dev.Abs() == WriteAbs(old(dev.Abs()), data)
    ensures file.fpos == old(file.fpos) + WriteAdvance(old(dev.Abs()), data)
  {
    var retval, crashed;
    ghost var env;
    retval, crashed, env := dev.Write(file, data, D.Fine);
    result := Result(retval, []);
  }

  /** `aesd_adjust_file_offset`, through the class. */
  method PerformSeek(dev: D.Device, file: D.File, cmd: nat, off: nat, past: seq<nat>) returns (result: Result)
    requires dev.Valid() && !dev.locked
    modifies dev`locked, file
    ensures dev.Valid() && !dev.locked
    ensures Serially(old(dev.Abs()), old(file.fpos), SeekCall(cmd, off), past, dev.Abs(), file.fpos, result)
  {
    var retval := dev.AdjustFileOffset(file, cmd, off, false, past);
    result := Result(retval, []);
  }

  /** `aesd_seek`, through the class, logged with the length it goes by; `files` are the
      positions of all files, that of thread `t` being `file`'s. */
  method Reposition(dev: D.Device, file: D.File, t: nat, offset: int, whence: Whence, ghost files: map<nat, int>)
    returns (position: int)
    requires dev.Valid() && t in files && files[t] == file.fpos
    modifies file
    ensures dev.Valid() && file.fpos == position
    ensures var item := Sought(t, offset, whence, Scan(0, 0, [], |Flat(dev.Abs().view)|), position);
            SerialItem(World(dev.Abs(), files), item) == (World(dev.Abs(), files[t := position]), ResultOf(item))
  {
    position := dev.Seek(file, offset, whence);
  }
}
