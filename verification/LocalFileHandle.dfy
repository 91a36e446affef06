/**
 The lock handle as an object: one acquisition and its sticky release. Every system call has its own outcome, so any
 call may fail, whatever the earlier ones did.
 */
module LocalFileHandle {
  import opened Outcomes
  import opened UnicodeText
  import opened LockDirectory

  datatype Kind = Compromised | Io | InvalidInput

  datatype TryResult = Acquired(lock: LocalFileLock) | Busy | Failed(kind: Kind)

  /** A call does what it says, fails, or meets a path that someone else made or removed for an instant. */
  datatype Weather = Calm | Fault | Raced

  class Disk {
    var dir: Dir
    /** How many system calls have been made; each call looks up its own weather. */
    var calls: nat
    const weather: nat -> Weather

    constructor (dir: Dir, weather: nat -> Weather)
      ensures this.dir == dir && this.weather == weather && calls == 0
    {
      this.dir, this.weather, calls := dir, weather, 0;
    }

    /** One system call with its normal outcome, and with its error where a race can make it fail. */
    method Call(outcome: (Dir, Option<Errno>), race: Option<Errno>) returns (e: Option<Errno>)
      modifies this
      ensures calls == old(calls) + 1
      ensures e == match weather(old(calls))
                   case Fault => Some(IoError)
                   case Raced => if race.Some? then race else outcome.1
                   case Calm => outcome.1
      ensures dir == if e.None? then outcome.0 else old(dir)
    {
      e := match weather(calls)
           case Fault => Some(IoError)
           case Raced => if race.Some? then race else outcome.1
           case Calm => outcome.1;
      calls := calls + 1;
      if e.None? {
        dir := outcome.0;
      }
    }

    ghost predicate AllCalm() {
      forall k :: weather(k).Calm?
    }

    /** At most one call fails and none is raced. */
    ghost predicate OneFault() {
      && (forall k :: !weather(k).Raced?)
      && forall j, k :: weather(j).Fault? && weather(k).Fault? ==> j == k
    }

    /** A call has failed already. */
    ghost predicate HasFailed()
      reads this
    {
      exists j :: 0 <= j < calls && weather(j).Fault?
    }
  }

  /** What an lstat of a name reports. */
  function Lstat(d: Dir, there: bool): (Dir, Option<Errno>) {
    (d, if there then None else Some(NotFound))
  }

  class LocalFileLock {
    const disk: Disk
    const owner: string
    var released: bool
    var releaseError: Option<Kind>

    constructor (disk: Disk, owner: string)
      ensures this.disk == disk && this.owner == owner && !released && releaseError.None?
    {
      this.disk, this.owner := disk, owner;
      released, releaseError := false, None;
    }

    /** `chunk` sizes the partial writes. */
    static method TryAcquire(disk: Disk, owner: string, chunk: nat -> nat) returns (r: TryResult)
      modifies disk
      ensures r == Failed(InvalidInput) <==> !AdmittedOwner(owner)
      ensures r.Acquired? ==>
                && fresh(r.lock) && r.lock.disk == disk && r.lock.owner == owner
                && !r.lock.released && r.lock.releaseError.None?
      ensures r.Acquired? ==> old(disk.dir).Absent? && disk.dir == Present(map[Owner := Utf8(owner)])
      ensures r.Busy? && (forall k :: !disk.weather(k).Raced?) ==> old(disk.dir).Present?
      ensures r.Busy? || old(disk.dir).Present? || r == Failed(InvalidInput) ==> disk.dir == old(disk.dir)
      ensures r.Failed? && old(disk.dir).Absent? ==> !Has(disk.dir, Owner)
      ensures r.Failed? && old(disk.dir).Absent? && disk.OneFault() ==> disk.dir.Absent?
      ensures AdmittedOwner(owner) && disk.AllCalm() ==>
                if old(disk.dir).Absent? then r.Acquired? else r.Busy?
    {
      if !AdmittedOwner(owner) {
        return Failed(InvalidInput);
      }
      var e := disk.Call((disk.dir, None), None);
      if e.Some? {
        return Failed(Io);
      }
      var created := false;
      for attempt := 0 to 2
        invariant !created && disk.dir == old(disk.dir)
        invariant attempt > 0 ==> exists k :: disk.weather(k).Raced?
      {
        e := disk.Call(Mkdir(disk.dir), Some(AlreadyExists));
        if e.None? {
          created := true;
          break;
        }
        if e.value != AlreadyExists {
          return Failed(Io);
        }
        e := disk.Call(Lstat(disk.dir, disk.dir.Present?), Some(NotFound));
        if e.None? {
          return Busy;
        }
        if e.value != NotFound {
          return Failed(Io);
        }
      }
      if !created {
        return Busy;
      }
      e := disk.Call(Create(disk.dir, Pending), None);
      if e.Some? {
        var _ := disk.Call(Rmdir(disk.dir), None);
        return Failed(if e.value == AlreadyExists then Compromised else Io);
      }
      var failure := Publish(disk, Utf8(owner), chunk);
      if failure.Some? {
        return Failed(failure.value);
      }
      var lock := new LocalFileLock(disk, owner);
      r := Acquired(lock);
    }

    /** Writes, syncs and closes the pending marker, then renames it; on any failure it cleans up as far as it can. */
    static method Publish(disk: Disk, token: seq<Byte>, chunk: nat -> nat) returns (failure: Option<Kind>)
      requires disk.dir == Present(map[Pending := []])
      modifies disk
      ensures failure.None? ==> disk.dir == Present(map[Owner := token])
      ensures failure.Some? ==> failure == Some(Io) && !Has(disk.dir, Owner)
      ensures failure.Some? && disk.OneFault() ==> disk.dir.Absent?
      ensures disk.AllCalm() ==> failure.None?
    {
      var written := Write(disk, token, chunk);
      var synced: Option<Errno> := None;
      if written.None? {
        synced := disk.Call((disk.dir, None), None);
      }
      var closed := disk.Call((disk.dir, None), None);
      if written.Some? || synced.Some? || closed.Some? {
        CleanUp(disk);
        return Some(Io);
      }
      var e := disk.Call(Lstat(disk.dir, Has(disk.dir, Owner)), None);
      if e != Some(NotFound) {
        CleanUp(disk);
        return Some(if e.None? then Compromised else Io);
      }
      assert Rename(disk.dir, Pending, Owner).0 == Present(map[Owner := token]);
      e := disk.Call(Rename(disk.dir, Pending, Owner), None);
      if e.Some? {
        CleanUp(disk);
        return Some(Io);
      }
      failure := None;
    }

    /** The token in as many partial writes as it takes; the first that fails ends them. */
    static method Write(disk: Disk, token: seq<Byte>, chunk: nat -> nat) returns (e: Option<Errno>)
      requires disk.dir == Present(map[Pending := []])
      modifies disk
      ensures disk.calls >= old(disk.calls)
      ensures e.None? ==> disk.dir == Present(map[Pending := token])
      ensures e.Some? ==>
                exists done :: 0 <= done < |token| && disk.dir == Present(map[Pending := token[..done]]) && disk.HasFailed()
    {
      var done := 0;
      e := None;
      while done < |token| && e.None?
        invariant 0 <= done <= |token| && disk.calls >= old(disk.calls)
        invariant disk.dir == Present(map[Pending := token[..done]])
        invariant e.Some? ==> done < |token| && disk.HasFailed()
        decreases |token| - done, e.None?
      {
        var n := 1 + chunk(done) % (|token| - done);
        assert token[..done] + token[done..done + n] == token[..done + n];
        e := disk.Call(Append(disk.dir, Pending, token[done..done + n]), None);
        if e.None? {
          done := done + n;
        }
      }
      if e.None? {
        assert token[..done] == token;
      }
    }

    /** Removes the pending marker and the directory, and does not look whether it could. */
    static method CleanUp(disk: Disk)
      requires disk.dir.Present? && disk.dir.entries.Keys == {Pending}
      modifies disk
      ensures !Has(disk.dir, Owner)
      ensures old(disk.HasFailed()) && disk.OneFault() ==> disk.dir.Absent?
    {
      var _ := disk.Call(Unlink(disk.dir, Pending), None);
      assert disk.dir.entries.Keys <= {Pending};
      assert Pending !in disk.dir.entries ==> disk.dir.entries == map[];
      var _ := disk.Call(Rmdir(disk.dir), None);
    }

    /** None on success; idempotent once released, sticky once the marker is gone but the directory is not. */
    method Release(chunk: nat -> nat) returns (r: Option<Kind>)
      modifies this, disk
      ensures r.None? <==> released
      ensures old(released) ==> r.None? && disk.dir == old(disk.dir) && releaseError == old(releaseError)
      ensures !old(released) && old(releaseError).Some? ==>
                r == old(releaseError) == releaseError && disk.dir == old(disk.dir)
      ensures !old(released) && released ==>
                old(disk.dir) == Present(map[Owner := Utf8(owner)]) && disk.dir.Absent?
      ensures r.Some? ==>
                if disk.dir == old(disk.dir) then releaseError == old(releaseError)
                else
                  && Has(old(disk.dir), Owner) && old(disk.dir).entries[Owner] == Utf8(owner)
                  && disk.dir == Unlink(old(disk.dir), Owner).0 && releaseError == r
      ensures !old(released) && old(releaseError).None? && AdmittedOwner(owner) && disk.AllCalm() ==>
                if old(disk.dir) == Present(map[Owner := Utf8(owner)]) then released else r == Some(Compromised)
    {
      if released {
        return None;
      }
      if releaseError.Some? {
        return releaseError;
      }
      var e := disk.Call(Lstat(disk.dir, disk.dir.Present?), None);
      if e.Some? {
        return Some(if e.value == NotFound then Compromised else Io);
      }
      e := disk.Call(Lstat(disk.dir, Has(disk.dir, Owner)), None);
      if e.Some? {
        return Some(if e.value == NotFound then Compromised else Io);
      }
      e := disk.Call((disk.dir, None), None);
      if e.Some? {
        return Some(Io);
      }
      if AdmittedOwner(owner) {
        OwnerReadsBack(owner);
      }
      var observed := ReadOwner(disk.dir.entries[Owner], chunk);
      if observed.None? || observed.value != Utf8(owner) {
        return Some(Compromised);
      }
      e := disk.Call(Unlink(disk.dir, Owner), None);
      if e.Some? {
        return Some(Io);
      }
      e := disk.Call(Rmdir(disk.dir), None);
      if e.Some? {
        releaseError := Some(if disk.dir.Present? && disk.dir.entries != map[] then Compromised else Io);
        return releaseError;
      }
      released := true;
      r := None;
    }
  }
}
