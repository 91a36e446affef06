/** The lock path as a directory, one atomic system call at a time. */
module LockDirectory {
  import opened Outcomes
  import opened UnicodeText

  /** The three names the protocol uses, and anything else someone put there. */
  datatype Name = Owner | Pending | Recovering | Foreign(id: nat)

  datatype Dir = Absent | Present(entries: map<Name, seq<Byte>>)

  datatype Errno = AlreadyExists | NotFound | NotEmpty | IoError

  predicate Has(d: Dir, n: Name) {
    d.Present? && n in d.entries
  }

  function Mkdir(d: Dir): (Dir, Option<Errno>) {
    if d.Present? then (d, Some(AlreadyExists)) else (Present(map[]), None)
  }

  /** Exclusive creation. */
  function Create(d: Dir, n: Name): (Dir, Option<Errno>) {
    if d.Absent? then (d, Some(NotFound))
    else if n in d.entries then (d, Some(AlreadyExists))
    else (Present(d.entries[n := []]), None)
  }

  function Append(d: Dir, n: Name, bytes: seq<Byte>): (Dir, Option<Errno>) {
    if !Has(d, n) then (d, Some(IoError)) else (Present(d.entries[n := d.entries[n] + bytes]), None)
  }

  function Rename(d: Dir, a: Name, b: Name): (Dir, Option<Errno>) {
    if !Has(d, a) then (d, Some(NotFound)) else (Present((d.entries - {a})[b := d.entries[a]]), None)
  }

  function Unlink(d: Dir, n: Name): (Dir, Option<Errno>) {
    if !Has(d, n) then (d, Some(NotFound)) else (Present(d.entries - {n}), None)
  }

  function Rmdir(d: Dir): (Dir, Option<Errno>) {
    if d.Absent? then (d, Some(NotFound))
    else if d.entries != map[] then (d, Some(NotEmpty))
    else (Absent, None)
  }

  datatype Inspection = IsAbsent | IsHeld(owner: seq<Byte>) | IsIncomplete | IsCompromised

  /** What a published marker says: a valid owner token or a contract violation. */
  function ReadMarker(bytes: seq<Byte>): Inspection {
    var text := Decode(bytes);
    if |bytes| > MAX_UTF8_BYTES || text.None? || !AdmittedOwner(text.value) then IsCompromised else IsHeld(bytes)
  }

  /** What the names alone say; None means that the owner marker must be read. */
  function ReadNames(names: set<Name>): Option<Inspection> {
    if names == {Owner} then None
    else if names == {} || names == {Pending} || names == {Recovering} then Some(IsIncomplete)
    else Some(IsCompromised)
  }

  /** One undisturbed inspection of the whole path. */
  function Read(d: Dir): Inspection {
    if d.Absent? then IsAbsent
    else
      var found := ReadNames(d.entries.Keys);
      if found.Some? then found.value else ReadMarker(d.entries[Owner])
  }

  /** A marker is held exactly when it is the encoding of an admitted owner, and then the owner is what it says. */
  lemma {:induction false} MarkerIsOwner(bytes: seq<Byte>)
    ensures ReadMarker(bytes) == IsHeld(bytes) <==> exists owner :: AdmittedOwner(owner) && Utf8(owner) == bytes
    ensures ReadMarker(bytes) != IsHeld(bytes) <==> ReadMarker(bytes) == IsCompromised
  {
    if ReadMarker(bytes) == IsHeld(bytes) {
      Utf8InvertsDecode(bytes);
      assert AdmittedOwner(Decode(bytes).value) && Utf8(Decode(bytes).value) == bytes;
    }
    if owner :| AdmittedOwner(owner) && Utf8(owner) == bytes {
      OwnerReadsBack(owner);
    }
  }

  /** What an undisturbed inspection of any directory reports. */
  lemma {:induction false} ReadIsExact(d: Dir)
    ensures Read(d).IsAbsent? <==> d.Absent?
    ensures Read(d).IsHeld? <==>
              exists owner :: AdmittedOwner(owner) && d == Present(map[Owner := Utf8(owner)])
    ensures Read(d).IsHeld? ==> d == Present(map[Owner := Read(d).owner])
    ensures Read(d).IsIncomplete? <==> d.Present? && Owner !in d.entries && |d.entries| <= 1 && ForeignFree(d)
  {
    if d.Present? && d.entries.Keys == {Owner} {
      MarkerIsOwner(d.entries[Owner]);
      assert d.entries == map[Owner := d.entries[Owner]];
      hide ReadMarker;
    }
    if owner :| AdmittedOwner(owner) && d == Present(map[Owner := Utf8(owner)]) {
      MarkerIsOwner(Utf8(owner));
      assert d.entries.Keys == {Owner};
      hide ReadMarker;
    }
    if d.Present? && Owner !in d.entries && |d.entries| <= 1 && ForeignFree(d) {
      AtMostOneName(d.entries.Keys);
    }
    if Read(d).IsIncomplete? {
      assert d.entries.Keys == {} || d.entries.Keys == {Pending} || d.entries.Keys == {Recovering};
      assert |d.entries.Keys| <= 1;
    }
  }

  predicate ForeignFree(d: Dir) {
    d.Present? ==> forall n | n in d.entries :: !n.Foreign?
  }

  lemma {:induction false} AtMostOneName(names: set<Name>)
    requires |names| <= 1 && Owner !in names && forall n | n in names :: !n.Foreign?
    ensures names == {} || names == {Pending} || names == {Recovering}
  {
    if names != {} {
      var n :| n in names;
      assert |names - {n}| == 0;
      assert names == {n};
    }
  }
}
