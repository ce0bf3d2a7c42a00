/** The rotating log writer over a file system whose operations may fail at any
    point.  File 0 is the current log, files 1 to `archives` (four in the daemon)
    the older ones, oldest last. */
module RollingLog {

  import opened Basics

  type Files = map<nat, seq<byte>>

  const BUFFER_BYTES: nat := 64 * 1024

  function Content(files: Files, i: nat): seq<byte> {
    if i in files then files[i] else []
  }

  /** Files n, n-1, ..., 0 read one after the other. */
  function Joined(files: Files, n: nat): seq<byte> {
    if n == 0 then Content(files, 0) else Content(files, n) + Joined(files, n - 1)
  }

  function Moved(files: Files, i: nat): Files {
    if i in files then (files - {i})[i + 1 := files[i]] else files
  }

  /** The bytes a write call took: none when it failed. */
  function Accepted(written: Option<nat>): nat {
    if written.Some? then written.value else 0
  }

  /** The answer to one file-system call: whether it succeeded and, for a write, how
      many bytes it took, before the error if there was one. */
  datatype Reply = Reply(ok: bool, taken: nat)

  function Min(a: nat, b: nat): nat {
    if a < b then a else b
  }

  /** How much of `added` bytes fits after `current` ones. */
  function Room(current: nat, added: nat, limit: nat): nat {
    if current < limit then Min(added, limit - current) else 0
  }

  predicate RotationDue(current: nat, added: nat, limit: nat) {
    current > 0 && current + added > limit
  }

  predicate Within(files: Files, limit: nat) {
    forall i <- files :: |files[i]| <= limit
  }

  predicate IsSuffix(a: seq<byte>, b: seq<byte>) {
    |a| <= |b| && b[|b| - |a|..] == a
  }

  lemma {:induction false} JoinedFrame(f: Files, g: Files, n: nat)
    requires forall i :: 0 <= i <= n ==> Content(f, i) == Content(g, i)
    ensures Joined(f, n) == Joined(g, n)
  {
    if n > 0 { JoinedFrame(f, g, n - 1); }
  }

  /** What the files below index n add to the joined text. */
  function Below(files: Files, n: nat): seq<byte> {
    if n == 0 then [] else Joined(files, n - 1)
  }

  lemma JoinedSplits(files: Files, n: nat)
    ensures Joined(files, n) == Content(files, n) + Below(files, n)
  {
  }

  lemma {:induction false} MovedOntoTop(files: Files, i: nat)
    requires i + 1 !in files
    ensures Joined(Moved(files, i), i + 1) == Joined(files, i + 1)
  {
    var g := Moved(files, i);
    if i > 0 { JoinedFrame(g, files, i - 1); }
    JoinedSplits(files, i);
    JoinedSplits(g, i);
    var moved, rest := Content(files, i), Below(files, i);
    assert Content(g, i + 1) == moved && Content(g, i) == [];
    assert moved + ([] + rest) == [] + (moved + rest);
  }

  /** Renaming a file onto a free neighbouring name leaves the joined text alone. */
  lemma {:induction false} MovedKeepsJoined(files: Files, i: nat, n: nat)
    requires i < n && i + 1 !in files
    ensures Joined(Moved(files, i), n) == Joined(files, n)
  {
    if n == i + 1 {
      MovedOntoTop(files, i);
    } else {
      MovedKeepsJoined(files, i, n - 1);
    }
  }

  /** Removing the oldest file drops exactly its bytes from the front. */
  lemma {:induction false} RemovingOldest(files: Files, n: nat)
    requires n > 0
    ensures Joined(files, n) == Content(files, n) + Joined(files - {n}, n)
  {
    var g := files - {n};
    assert Content(g, n) == [];
    JoinedFrame(g, files, n - 1);
    assert Joined(g, n) == Joined(files, n - 1);
  }

  lemma {:induction false} AppendingToCurrent(files: Files, data: seq<byte>, n: nat)
    ensures Joined(files[0 := Content(files, 0) + data], n) == Joined(files, n) + data
  {
    if n > 0 {
      AppendingToCurrent(files, data, n - 1);
      assert Content(files, n) + (Joined(files, n - 1) + data) == Joined(files, n) + data;
    }
  }

  /** Moving bytes from the write buffer to the file changes neither view. */
  lemma {:induction false} FlushingKeeps(files: Files, buffer: seq<byte>, n: nat, last: nat)
    requires 0 in files && n <= |buffer|
    ensures var g := files[0 := files[0] + buffer[..n]];
            && Joined(g, last) + buffer[n..] == Joined(files, last) + buffer
            && Content(g, 0) + buffer[n..] == Content(files, 0) + buffer
  {
    AppendingToCurrent(files, buffer[..n], last);
    assert buffer == buffer[..n] + buffer[n..];
    assert Joined(files, last) + buffer[..n] + buffer[n..] == Joined(files, last) + buffer;
  }

  lemma SuffixAfter(kept: seq<byte>, history: seq<byte>, dropped: nat, added: seq<byte>)
    requires IsSuffix(kept, history) && dropped <= |kept|
    ensures IsSuffix(kept[dropped..] + added, history + added)
  {
    assert history == history[..|history| - |kept|] + kept;
    assert history + added == (history[..|history| - |kept|] + kept[..dropped]) + (kept[dropped..] + added);
  }

  lemma {:induction false} OldestGivenUp(files: Files, n: nat, history: seq<byte>)
    requires n > 0 && IsSuffix(Joined(files, n) + [], history)
    ensures var kept, dropped := Joined(files, n) + [], |Content(files, n)|;
            && dropped <= |kept| && Joined(files - {n}, n) + [] == kept[dropped..]
            && IsSuffix(Joined(files - {n}, n) + [], history)
  {
    RemovingOldest(files, n);
    var kept, dropped := Joined(files, n) + [], |Content(files, n)|;
    assert kept[dropped..] + [] == kept[dropped..] && history + [] == history;
    SuffixAfter(kept, history, dropped, []);
  }

  lemma {:induction false} AppendedToFile(files: Files, data: seq<byte>, n: nat, history: seq<byte>)
    requires 0 in files && IsSuffix(Joined(files, n) + [], history)
    ensures var g := files[0 := files[0] + data];
            && Joined(g, n) + [] == Joined(files, n) + [] + data && Content(g, 0) + [] == Content(files, 0) + [] + data
            && IsSuffix(Joined(g, n) + [], history + data)
  {
    AppendingToCurrent(files, data, n);
    var kept := Joined(files, n) + [];
    assert kept[0..] == kept;
    SuffixAfter(kept, history, 0, data);
  }

  lemma PrefixGrows(front: seq<byte>, record: seq<byte>, done: nat, n: nat)
    requires done + n <= |record|
    ensures front + record[..done] + record[done..][..n] == front + record[..done + n]
  {
    assert record[..done + n] == record[..done] + record[done..][..n];
  }

  /** What a record of `added` bytes is put after: the current file, or a new one. */
  function Base(current: seq<byte>, added: nat, limit: nat): (base: seq<byte>)
    ensures |current| + added <= limit ==> base == current
    ensures current != [] && |current| + added > limit ==> base == []
    ensures base == [] || base == current
  {
    if RotationDue(|current|, added, limit) then [] else current
  }

  /** A write that succeeds takes all the room, unless it is larger than the write
      buffer; it always takes something. */
  predicate TakesRoom(written: Option<nat>, room: nat) {
    written.Some? ==> 0 < written.value <= room && (room < BUFFER_BYTES ==> written.value == room)
  }

  class Log {
    const maxBytes: nat
    const archives: nat
    /** The file system's answers, call by call, and how many have been used. */
    const disk: nat -> Reply
    var calls: nat
    var files: Files
    var isOpen: bool
    var buffer: seq<byte>
    var bytes: nat
    /** Everything the managed files held at start, then every byte accepted. */
    ghost var history: seq<byte>

    /** All the files, oldest first, then what the write buffer still holds. */
    ghost function Retained(): seq<byte>
      reads this
    {
      Joined(files, archives) + buffer
    }

    /** The current file, buffered tail included. */
    ghost function Current(): seq<byte>
      reads this
    {
      Content(files, 0) + buffer
    }

    ghost function Oldest(): seq<byte>
      reads this
    {
      Content(files, archives)
    }

    ghost predicate Valid()
      reads this
    {
      && maxBytes > 0 && archives > 0
      && (forall i <- files :: i <= archives)
      && (isOpen ==> 0 in files && bytes == |Current()|)
      && (!isOpen ==> buffer == [])
      && IsSuffix(Retained(), history)
    }

    /** No file is over the limit. */
    ghost predicate Bounded()
      reads this
    {
      Within(files, maxBytes) && |Current()| <= maxBytes
    }

    /** No call from now on fails. */
    ghost predicate Reliable(from: nat) {
      forall k :: k >= from ==> disk(k).ok
    }

    method Ask() returns (reply: Reply)
      modifies this`calls
      ensures calls == old(calls) + 1 && reply == disk(old(calls))
    {
      reply := disk(calls);
      calls := calls + 1;
    }

    constructor (found: Files, limit: nat, last: nat, disk: nat -> Reply)
      requires limit > 0 && last > 0 && forall i <- found :: i <= last
      ensures Valid() && files == found && !isOpen && maxBytes == limit && archives == last
      ensures this.disk == disk && calls == 0
      ensures history == Retained() == Joined(found, last) && Current() == Content(found, 0)
      ensures Within(found, limit) ==> Bounded()
    {
      archives := last;
      this.disk, calls := disk, 0;
      maxBytes, files, isOpen, buffer, bytes := limit, found, false, [], 0;
      history := Joined(found, last) + [];
    }

    /** `new`: refuses a zero limit, then the paths are checked and the file opened,
        either of which may fail. */
    static method Create(found: Files, limit: nat, last: nat, disk: nat -> Reply) returns (created: Option<Log>)
      requires last > 0 && forall i <- found :: i <= last
      ensures limit == 0 ==> created.None?
      ensures limit > 0 && (forall k :: disk(k).ok) ==> created.Some?
      ensures created.Some? ==> var log := created.value;
              && fresh(log) && log.Valid() && log.isOpen && log.maxBytes == limit && log.archives == last
              && log.history == log.Retained() == Joined(found, last)
              && log.Current() == Content(found, 0) && log.bytes == |Content(found, 0)|
              && (Within(found, limit) ==> log.Bounded())
    {
      if limit == 0 { return None; }
      var log := new Log(found, limit, last, disk);
      var ok := log.CheckAndOpen();
      return if ok then Some(log) else None;
    }

    method CheckAndOpen() returns (ok: bool)
      requires Valid() && !isOpen
      modifies this`files, this`isOpen, this`bytes, this`calls
      ensures Valid() && isOpen == ok && Retained() == old(Retained()) && Current() == old(Current())
      ensures old(Bounded()) ==> Bounded()
      ensures Reliable(old(calls)) ==> ok
    {
      var checked := Ask();
      ok := checked.ok;
      if ok { ok := Open(); }
    }

    /** `fs::remove_file`, a missing file counting as removed. */
    method RemoveFile(i: nat) returns (ok: bool)
      modifies this`files, this`calls
      ensures files == if ok then old(files) - {i} else old(files)
      ensures calls >= old(calls) && (Reliable(old(calls)) ==> ok)
    {
      var reply := Ask();
      ok := reply.ok;
      if ok { files := files - {i}; }
    }

    /** `fs::rename` to the next index, a missing source counting as renamed. */
    method RenameToNext(i: nat) returns (ok: bool)
      modifies this`files, this`calls
      ensures files == if ok then Moved(old(files), i) else old(files)
      ensures calls >= old(calls) && (Reliable(old(calls)) ==> ok)
    {
      var reply := Ask();
      ok := reply.ok;
      if ok { files := Moved(files, i); }
    }

    /** Opening creates the file; the checks after creation may still fail. */
    method Open() returns (ok: bool)
      requires Valid() && !isOpen
      modifies this`files, this`isOpen, this`bytes, this`calls
      ensures Valid() && isOpen == ok
      ensures files == old(files) || (0 !in old(files) && files == old(files)[0 := []])
      ensures Retained() == old(Retained()) && Current() == old(Current())
      ensures old(Bounded()) ==> Bounded()
      ensures calls >= old(calls) && (Reliable(old(calls)) ==> ok)
    {
      var created := Ask();
      ok := false;
      if created.ok {
        if 0 !in files {
          JoinedFrame(files[0 := []], files, archives);
          files := files[0 := []];
        }
        var checked := Ask();
        ok := checked.ok;
      }
      if ok {
        bytes := |files[0]|;
        isOpen := true;
      }
    }

    /** Writes out a prefix of the buffer: all of it on success. */
    method FlushBuffer() returns (ok: bool)
      requires Valid() && isOpen
      modifies this`files, this`buffer, this`calls
      ensures Valid() && (ok ==> buffer == [])
      ensures Retained() == old(Retained()) && Current() == old(Current())
      ensures Oldest() == old(Oldest())
      ensures old(Bounded()) ==> Bounded()
      ensures calls >= old(calls) && (Reliable(old(calls)) ==> ok)
    {
      var reply := Ask();
      ok := reply.ok;
      var n := if ok then |buffer| else Min(reply.taken, |buffer|);
      FlushingKeeps(files, buffer, n, archives);
      files, buffer := files[0 := files[0] + buffer[..n]], buffer[n..];
    }

    /** Closes the current file and removes the oldest one. */
    method DropOldest() returns (ok: bool, ghost dropped: nat)
      requires Valid() && isOpen && buffer == []
      modifies this`files, this`isOpen, this`calls
      ensures calls >= old(calls) && (Reliable(old(calls)) ==> ok)
      ensures Valid() && !isOpen && (ok ==> archives !in files && dropped == |old(Oldest())|)
      ensures !ok ==> dropped == 0
      ensures dropped <= |old(Retained())| && Retained() == old(Retained())[dropped..]
      ensures old(Bounded()) ==> Bounded()
    {
      isOpen := false;
      dropped := 0;
      ok := RemoveFile(archives);
      if ok {
        OldestGivenUp(old(files), archives, history);
        dropped := |Content(old(files), archives)|;
      }
    }

    /** Renames each file to the next index, the oldest first and file 0 last,
        stopping at the first failure. */
    method ShiftFiles() returns (ok: bool)
      requires Valid() && !isOpen && archives !in files
      modifies this`files, this`calls
      ensures calls >= old(calls) && (Reliable(old(calls)) ==> ok)
      ensures Valid() && Retained() == old(Retained())
      ensures ok ==> 0 !in files
      ensures old(Bounded()) ==> Bounded()
    {
      var index: nat := archives;
      while index > 0
        invariant index <= archives && index !in files && forall i <- files :: i <= archives
        invariant Joined(files, archives) == old(Joined(files, archives))
        invariant old(Within(files, maxBytes)) ==> Within(files, maxBytes)
        invariant calls >= old(calls)
      {
        index := index - 1;
        MovedKeepsJoined(files, index, archives);
        ok := RenameToNext(index);
        if !ok { return; }
      }
      ok := true;
    }

    /** Shifts every file up by one and starts a new one.  Exactly the oldest
        file's bytes are given up, and nothing at all if a step fails before its
        removal; a failure in between leaves a gap, never a reordering. */
    method Rotate() returns (ok: bool, ghost dropped: nat)
      requires Valid() && isOpen
      modifies this`files, this`isOpen, this`buffer, this`bytes, this`calls
      ensures calls >= old(calls) && (Reliable(old(calls)) ==> ok)
      ensures Valid() && (ok ==> isOpen && Current() == [])
      ensures (dropped == 0 && !ok) || dropped == |old(Oldest())|
      ensures dropped <= |old(Retained())| && Retained() == old(Retained())[dropped..]
      ensures old(Bounded()) ==> Bounded()
    {
      dropped := 0;
      var checked := Ask(); // the managed paths may be refused
      ok := checked.ok;
      if !ok { return; }
      ok := FlushBuffer();
      if !ok { return; }
      ok, dropped := DropOldest();
      if !ok { return; }
      ok := ShiftFiles();
      if !ok { return; }
      ok := Open();
    }

    method AppendToBuffer(data: seq<byte>)
      requires Valid() && isOpen
      modifies this`buffer, this`bytes, this`history
      ensures Valid() && Took(old(Retained()), old(Current()), old(history), data)
    {
      SuffixAfter(Retained(), history, 0, data);
      assert Joined(files, archives) + (buffer + data) == Retained() + data;
      buffer, bytes := buffer + data, bytes + |data|;
      history := history + data;
    }

    method AppendToFile(data: seq<byte>)
      requires Valid() && isOpen && buffer == []
      modifies this`files, this`bytes, this`history
      ensures Valid() && Took(old(Retained()), old(Current()), old(history), data)
      ensures files == old(files)[0 := old(files)[0] + data]
    {
      AppendedToFile(files, data, archives, history);
      files, bytes := files[0 := files[0] + data], bytes + |data|;
      history := history + data;
    }

    /** The log took `data` at its end and changed nothing else. */
    ghost predicate Took(retained: seq<byte>, current: seq<byte>, past: seq<byte>, data: seq<byte>)
      reads this
    {
      Retained() == retained + data && Current() == current + data && history == past + data
    }

    /** `BufWriter::write`: flush first if the data does not fit; large data goes
        straight to the file, possibly in part. */
    method BufferedWrite(data: seq<byte>) returns (written: Option<nat>)
      requires Valid() && isOpen && data != []
      modifies this`files, this`buffer, this`bytes, this`history, this`calls
      ensures Valid() && isOpen && Accepted(written) <= |data|
      ensures Took(old(Retained()), old(Current()), old(history), data[..Accepted(written)])
      ensures written.Some? ==> written.value > 0 && (|data| < BUFFER_BYTES ==> written.value == |data|)
      ensures old(Bounded()) && |old(Current())| + |data| <= maxBytes ==> Bounded()
      ensures calls >= old(calls) && (Reliable(old(calls)) ==> written.Some?)
    {
      if |buffer| + |data| > BUFFER_BYTES {
        var ok := FlushBuffer();
        if !ok { return None; }
      }
      if |data| < BUFFER_BYTES {
        AppendToBuffer(data);
        assert data[..|data|] == data;
        return Some(|data|);
      }
      var reply := Ask();
      if !reply.ok { return None; }
      var n := if reply.taken == 0 then 1 else Min(reply.taken, |data|);
      AppendToFile(data[..n]);
      return Some(n);
    }

    /** Opens the current file if need be, and rotates when it is not empty and
        cannot hold `added` more bytes. */
    method MakeRoom(added: nat) returns (ok: bool, ghost dropped: nat)
      requires Valid()
      modifies this`files, this`isOpen, this`buffer, this`bytes, this`calls
      ensures calls >= old(calls) && (Reliable(old(calls)) ==> ok)
      ensures Valid() && (ok ==> isOpen)
      ensures dropped <= |old(Retained())| && Retained() == old(Retained())[dropped..]
      ensures dropped == 0 || (dropped == |old(Oldest())| && RotationDue(|old(Current())|, added, maxBytes))
      ensures ok ==> Current() == Base(old(Current()), added, maxBytes)
      ensures old(Bounded()) ==> Bounded()
    {
      ok, dropped := true, 0;
      if !isOpen {
        ok := Open();
        if !ok { return; }
      }
      if bytes > 0 && bytes + added > maxBytes {
        ok, dropped := Rotate();
      }
    }

    /** Takes as much of `data` as the current file has room for, or less only of data
        that goes past the write buffer. */
    method WriteRoom(data: seq<byte>) returns (written: Option<nat>)
      requires Valid() && isOpen && data != [] && !RotationDue(|Current()|, |data|, maxBytes)
      modifies this`files, this`buffer, this`bytes, this`history, this`calls
      ensures Valid() && Accepted(written) <= |data|
      ensures Took(old(Retained()), old(Current()), old(history), data[..Accepted(written)])
      ensures TakesRoom(written, Room(|old(Current())|, |data|, maxBytes))
      ensures old(Bounded()) ==> Bounded()
      ensures calls >= old(calls) && (Reliable(old(calls)) ==> written.Some?)
    {
      var room: nat := maxBytes - bytes;
      var length := if |data| < room then |data| else room;
      written := BufferedWrite(data[..length]);
      assert data[..length][..Accepted(written)] == data[..Accepted(written)];
    }

    /** `write`: takes as much of `data` as fits, rotating first if and only if the
        current file is not empty and cannot hold it all.  Only rotation gives anything
        up, and then only the oldest file; without a fault the write succeeds. */
    method Write(data: seq<byte>) returns (written: Option<nat>, ghost dropped: nat)
      requires Valid()
      modifies this`files, this`isOpen, this`buffer, this`bytes, this`history, this`calls
      ensures Valid() && Accepted(written) <= |data|
      ensures dropped <= |old(Retained())|
      ensures Retained() == old(Retained())[dropped..] + data[..Accepted(written)]
      ensures history == old(history) + data[..Accepted(written)]
      ensures dropped == 0 || dropped == |old(Oldest())|
      ensures |old(Current())| == 0 || |old(Current())| + |data| <= maxBytes ==> dropped == 0
      ensures written.Some? && data != [] ==>
                Current() == Base(old(Current()), |data|, maxBytes) + data[..written.value]
      ensures data != [] ==> TakesRoom(written, Room(|Base(old(Current()), |data|, maxBytes)|, |data|, maxBytes))
      ensures old(Bounded()) ==> Bounded()
      ensures calls >= old(calls) && (Reliable(old(calls)) ==> written.Some?)
    {
      dropped := 0;
      if data == [] { return Some(0), 0; }
      var ok;
      ok, dropped := MakeRoom(|data|);
      if !ok { return None, dropped; }
      written := WriteRoom(data);
    }

    /** `done` bytes of a record are in: `before` is the history at its start, `base`
        what precedes it in its file. */
    ghost predicate Progress(record: seq<byte>, done: nat, before: seq<byte>, base: seq<byte>)
      reads this
    {
      && done <= |record| && history == before + record[..done]
      && (base == [] || |base| + |record| <= maxBytes)
      && (done == 0 ==> base == Base(Current(), |record|, maxBytes))
      && (done > 0 && |record| <= maxBytes ==> Current() == base + record[..done])
    }

    method WritePart(record: seq<byte>, done: nat, ghost before: seq<byte>, ghost base: seq<byte>)
      returns (written: Option<nat>)
      requires Valid() && done < |record| && Progress(record, done, before, base)
      modifies this`files, this`isOpen, this`buffer, this`bytes, this`history, this`calls
      ensures calls >= old(calls) && (Reliable(old(calls)) ==> Accepted(written) > 0)
      ensures Valid() && done + Accepted(written) <= |record| && history == before + record[..done + Accepted(written)]
      ensures Accepted(written) > 0 ==> Progress(record, done + Accepted(written), before, base)
      ensures old(Bounded()) ==> Bounded()
    {
      var rest := record[done..];
      ghost var dropped;
      written, dropped := Write(rest);
      PrefixGrows(before, record, done, Accepted(written));
      PrefixGrows(base, record, done, Accepted(written));
      assert record[..done] == [] <==> done == 0;
      assert base + [] == base;
    }

    /** `write_all`: on success the whole record was taken, and a record that fits a file
        lies unbroken at the end of the current one, after what was there if both fit.
        Without a fault it succeeds. */
    method WriteAll(record: seq<byte>) returns (ok: bool, ghost taken: nat)
      requires Valid()
      modifies this`files, this`isOpen, this`buffer, this`bytes, this`history, this`calls
      ensures Valid() && taken <= |record| && history == old(history) + record[..taken]
      ensures ok ==> taken == |record|
      ensures ok && 0 < |record| <= maxBytes ==> Current() == Base(old(Current()), |record|, maxBytes) + record
      ensures old(Bounded()) ==> Bounded()
      ensures Reliable(old(calls)) ==> ok
    {
      ghost var base := Base(Current(), |record|, maxBytes);
      var done: nat := 0;
      taken := 0;
      assert Progress(record, 0, history, base);
      while done < |record|
        invariant Valid() && taken == done <= |record| && Progress(record, done, old(history), base)
        invariant calls >= old(calls)
        invariant old(Bounded()) ==> Bounded()
      {
        var written := WritePart(record, done, old(history), base);
        taken := done + Accepted(written);
        if Accepted(written) == 0 { return false, taken; }
        done := done + Accepted(written);
      }
      assert record[..|record|] == record;
      ok := true;
    }
  }
}
