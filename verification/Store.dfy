/** agent/internal/store/store.go: the device allowlist over a disk whose writes can fail, and the
    enrollment window. Each method is proved against the value-level functions of Devices and PairingWindow. */
module Store {
  import opened Common
  import D = Devices
  import W = PairingWindow

  type Time = D.Time

  // ---------- the disk ----------

  datatype File = Whole(list: seq<D.Device>) | Torn

  /** devices.json and devices.json.tmp; they outlive the process. */
  class Disk {
    var main: Option<File>
    var tmp: Option<File>

    constructor ()
      ensures main == None && tmp == None
    {
      main, tmp := None, None;
    }
  }

  /** Where one `save` goes wrong; `left` is what the failed write put in the temporary file. */
  datatype Fault =
    | NoFault
    | EncodeFails
    | WriteFails(left: Option<File>, removeWorks: bool)
    | RenameFails(removeWorks: bool)

  datatype RevokeError = Nil | SaveFailed | NotFound | Ambiguous(count: nat)

  class Device {
    var id: string
    var name: string
    var fingerprint: string
    var tokenHash: string
    var enrolledAt: Time
    var lastSeen: Time
    var expiresAt: Time

    ghost function Value(): D.Device
      reads this
    {
      D.Device(id, name, fingerprint, tokenHash, enrolledAt, lastSeen, expiresAt)
    }

    method Read() returns (d: D.Device)
      ensures d == Value()
    {
      d := D.Device(id, name, fingerprint, tokenHash, enrolledAt, lastSeen, expiresAt);
    }

    constructor (d: D.Device)
      ensures Value() == d
    {
      id, name, fingerprint, tokenHash := d.id, d.name, d.fingerprint, d.tokenHash;
      enrolledAt, lastSeen, expiresAt := d.enrolledAt, d.lastSeen, d.expiresAt;
    }
  }

  class Store {
    const disk: Disk
    const maxAttempts: nat
    var devices: map<string, Device>
    var enrollCode: string
    var enrollExpires: Time
    var enrollAttempts: nat
    var graceUntil: Time

    /** Each device is stored under its own fingerprint, so no object is stored twice. */
    ghost predicate Valid()
      reads this`devices, devices.Values
    {
      forall fp :: fp in devices ==> devices[fp].fingerprint == fp
    }

    ghost function Mem(): D.Table
      reads this`devices, devices.Values
    {
      map fp | fp in devices :: devices[fp].Value()
    }

    ghost function Stored(): D.Table
      reads disk
    {
      if disk.main.Some? && disk.main.value.Whole? then D.Loaded(disk.main.value.list) else map[]
    }

    ghost function State(): D.State
      reads this`devices, devices.Values, disk
    {
      D.State(Mem(), Stored())
    }

    ghost function Window(): W.Window
      reads this`enrollCode, this`enrollExpires, this`enrollAttempts, this`graceUntil
    {
      W.Window(enrollCode, enrollExpires, enrollAttempts, graceUntil)
    }

    /** The tables are those of `s`. */
    ghost predicate Is(s: D.State)
      reads this`devices, devices.Values, disk
    {
      Mem() == s.mem && Stored() == s.stored
    }

    constructor Empty(disk: Disk, maxAttempts: nat)
      ensures Valid() && this.disk == disk && this.maxAttempts == maxAttempts
      ensures Mem() == map[] && devices == map[] && Window() == W.NEVER_OPENED
    {
      this.disk, this.maxAttempts, devices := disk, maxAttempts, map[];
      enrollCode, enrollExpires, enrollAttempts, graceUntil := "", 0, 0, 0;
    }

    /** Fills an empty table from a decoded file. */
    method Load(list: seq<D.Device>)
      requires Valid() && devices == map[]
      modifies this`devices
      ensures Valid() && Mem() == D.Loaded(list)
      ensures forall fp :: fp in devices ==> fresh(devices[fp])
    {
      for i := 0 to |list|
        invariant Valid() && Mem() == D.Loaded(list[..i])
        invariant forall fp :: fp in devices ==> fresh(devices[fp])
      {
        var d := new Device(list[i]);
        Put(list[i].fingerprint, d);
        assert list[..i + 1][..i] == list[..i];
      }
      assert list[..|list|] == list;
    }

    /** Starting the process. A file that cannot be read counts as absent; one that is not JSON is an error. */
    static method New(disk: Disk, maxAttempts: nat, mkdirWorks: bool, readable: bool) returns (s: Store?)
      ensures s == null <==> !mkdirWorks || (readable && disk.main == Some(Torn))
      ensures s != null ==> fresh(s) && s.disk == disk && s.Valid() && s.Window() == W.NEVER_OPENED
      ensures s != null ==> s.Is(D.Restarted(s.Stored(), readable))
      ensures s != null ==> s.maxAttempts == maxAttempts
    {
      if !mkdirWorks {
        return null;
      }
      s := new Store.Empty(disk, maxAttempts);
      if readable && disk.main.Some? {
        match disk.main.value {
          case Torn => return null;
          case Whole(list) => s.Load(list);
        }
      }
    }

    /** The devices in whatever order the map yields them. */
    method Listing() returns (list: seq<D.Device>)
      requires Valid()
      ensures D.Loaded(list) == Mem() && |list| == |devices|
    {
      list := [];
      var todo := devices.Keys;
      while todo != {}
        invariant todo <= devices.Keys
        invariant D.Loaded(list) == map fp | fp in devices && fp !in todo :: devices[fp].Value()
        invariant |list| + |todo| == |devices|
        decreases todo
      {
        var fp :| fp in todo;
        var d := devices[fp].Read();
        assert Mem()[fp].fingerprint == fp;
        assert (list + [d])[..|list|] == list;
        list := list + [d];
        todo := todo - {fp};
      }
    }

    /** Writes the whole table to the temporary file and renames it over devices.json. */
    method Save(fault: Fault) returns (ok: bool)
      requires Valid()
      modifies disk
      ensures Valid() && Mem() == old(Mem())
      ensures ok <==> fault.NoFault?
      ensures ok ==> Stored() == Mem() && disk.main != Some(Torn) && disk.tmp == None
      ensures !ok ==> disk.main == old(disk.main) && Stored() == old(Stored())
      ensures (fault.WriteFails? || fault.RenameFails?) && fault.removeWorks ==> disk.tmp == None
      ensures fault.EncodeFails? ==> disk.tmp == old(disk.tmp)
    {
      var list := Listing();
      match fault {
        case EncodeFails =>
          return false;
        case WriteFails(left, removeWorks) =>
          disk.tmp := if removeWorks then None else left;
          return false;
        case RenameFails(removeWorks) =>
          disk.tmp := if removeWorks then None else Some(Whole(list));
          return false;
        case NoFault =>
          disk.main, disk.tmp := Some(Whole(list)), None;
          return true;
      }
    }

    method Put(fp: string, d: Device)
      requires Valid() && d.fingerprint == fp
      requires d !in devices.Values
      modifies this`devices
      ensures Valid() && devices == old(devices)[fp := d]
      ensures Mem() == old(Mem())[fp := d.Value()]
    {
      devices := devices[fp := d];
      assert Mem() == old(Mem())[fp := d.Value()];
    }

    method Delete(fp: string)
      requires Valid()
      modifies this`devices
      ensures Valid() && devices == old(devices) - {fp}
      ensures Mem() == old(Mem()) - {fp}
    {
      devices := devices - {fp};
      assert Mem() == old(Mem()) - {fp};
    }

    method Lookup(fp: string) returns (d: Device?)
      ensures d != null <==> fp in devices
      ensures d != null ==> fresh(d) && d.Value() == Mem()[fp]
    {
      if fp !in devices {
        return null;
      }
      var c := devices[fp].Read();
      d := new Device(c);
    }

    method Touch(fp: string, now: Time)
      requires Valid()
      modifies devices.Values
      ensures Valid() && Is(D.Next(old(State()), D.Touch(fp, now)))
      ensures fp in devices ==> Mem() == old(Mem())[fp := old(Mem())[fp].(lastSeen := now)]
      ensures fp !in devices ==> Mem() == old(Mem())
    {
      if fp in devices {
        devices[fp].lastSeen := now;
        assert Mem() == D.Touched(old(Mem()), fp, now);
      }
    }

    /** The locked part of `Add`. */
    method Insert(fp: string, d: Device, fault: Fault) returns (ok: bool)
      requires Valid() && d.fingerprint == fp && d !in devices.Values
      modifies this`devices, disk
      ensures Valid() && (ok <==> fault.NoFault?)
      ensures Mem() == if ok then old(Mem())[fp := d.Value()] else old(Mem())[fp := d.Value()] - {fp}
      ensures ok ==> fp in devices && devices[fp] == d
      ensures Stored() == if ok then Mem() else old(Stored())
    {
      Put(fp, d);
      ok := Save(fault);
      if !ok {
        Delete(fp);
      }
    }

    /** `tokenHash` is absent when no random token could be drawn. */
    method Add(name: string, fp: string, expires: Time, id: string, tokenHash: Option<string>,
               enrolled: Time, seen: Time, fault: Fault) returns (d: Device?)
      requires Valid()
      modifies this`devices, disk
      ensures Valid()
      ensures d != null <==> tokenHash.Some? && fault.NoFault?
      ensures d != null ==> fp in devices && d == devices[fp]
      ensures tokenHash.None? ==> Is(old(State()))
      ensures tokenHash.Some? ==>
                Is(D.Next(old(State()),
                  D.Write(D.AddDevice(D.Device(id, name, fp, tokenHash.value, enrolled, seen, expires)),
                          if d != null then D.Saved else D.Failed)))
    {
      if tokenHash.None? {
        return null;
      }
      var entry := new Device(D.Device(id, name, fp, tokenHash.value, enrolled, seen, expires));
      var ok := Insert(fp, entry, fault);
      return if ok then entry else null;
    }

    /** Moves a device to another fingerprint and expiry. */
    method Move(fp: string, newFp: string, expires: Time)
      requires Valid() && fp in devices
      modifies this`devices, devices[fp]
      ensures Valid() && newFp in devices && devices[newFp] == old(devices[fp])
      ensures devices.Values <= old(devices.Values)
      ensures Mem() == (old(Mem()) - {fp})[newFp := old(Mem())[fp].(fingerprint := newFp, expiresAt := expires)]
    {
      var entry := devices[fp];
      Delete(fp);
      ghost var rest := Mem();
      entry.fingerprint, entry.expiresAt := newFp, expires;
      assert Mem() == rest;
      Put(newFp, entry);
    }

    method Replace(oldFp: string, newFp: string, expires: Time, fault: Fault) returns (d: Device?)
      requires Valid()
      modifies this`devices, devices.Values, disk
      ensures Valid()
      ensures d != null <==> oldFp in old(devices) && fault.NoFault?
      ensures d != null ==> newFp in devices && d == devices[newFp]
      ensures oldFp !in old(devices) ==> Is(old(State()))
      ensures oldFp in old(devices) ==>
                Is(D.Next(old(State()),
                  D.Write(D.Renew(oldFp, newFp, expires), if d != null then D.Saved else D.Failed)))
    {
      if oldFp !in devices {
        return null;
      }
      ghost var was, c := Mem(), D.Renew(oldFp, newFp, expires);
      var before := devices[oldFp].Read();
      Move(oldFp, newFp, expires);
      assert Mem() == D.Target(was, c);
      var ok := Save(fault);
      if !ok {
        Move(newFp, oldFp, before.expiresAt);
        assert Mem() == D.RolledBack(was, c);
        return null;
      }
      return devices[newFp];
    }

    /** Deletes one device and saves; a failed save is reported but not undone. */
    method Remove(fp: string, fault: Fault) returns (name: string, err: RevokeError)
      requires Valid() && fp in devices
      modifies this`devices, disk
      ensures Valid() && name == old(Mem())[fp].name
      ensures err == if fault.NoFault? then Nil else SaveFailed
      ensures Is(D.Next(old(State()), D.Write(D.Drop(fp), if err == Nil then D.Saved else D.Failed)))
    {
      name := devices[fp].name;
      Delete(fp);
      var ok := Save(fault);
      err := if ok then Nil else SaveFailed;
    }

    method FindById(id: string) returns (found: Option<string>)
      ensures match found
              case Some(fp) => fp in devices && devices[fp].id == id
              case None => forall fp :: fp in devices ==> devices[fp].id != id
    {
      var todo := devices.Keys;
      while todo != {}
        invariant todo <= devices.Keys
        invariant forall fp :: fp in devices && fp !in todo ==> devices[fp].id != id
        decreases todo
      {
        var fp :| fp in todo;
        if devices[fp].id == id {
          return Some(fp);
        }
        todo := todo - {fp};
      }
      return None;
    }

    method FindByName(name: string, same: (string, string) -> bool) returns (hits: seq<string>)
      ensures forall fp :: fp in hits ==> fp in devices
      ensures |hits| == |D.NameHits(Mem(), name, same)|
      ensures |hits| == 1 ==> D.NameHits(Mem(), name, same) == {hits[0]}
    {
      hits := [];
      var todo := devices.Keys;
      while todo != {}
        invariant todo <= devices.Keys
        invariant forall fp :: fp in hits <==> fp in devices && fp !in todo && same(devices[fp].name, name)
        invariant |hits| == |set fp | fp in hits|
        decreases todo
      {
        var fp :| fp in todo;
        if same(devices[fp].name, name) {
          assert (set x | x in hits + [fp]) == (set x | x in hits) + {fp};
          hits := hits + [fp];
        }
        todo := todo - {fp};
      }
      assert (set fp | fp in hits) == D.NameHits(Mem(), name, same);
    }

    /** `same` is strings.EqualFold; `picked` is the removed fingerprint, if any. */
    method Revoke(id: string, same: (string, string) -> bool, fault: Fault)
      returns (name: string, err: RevokeError, ghost picked: Option<string>)
      requires Valid()
      modifies this`devices, disk
      ensures Valid() && D.Picks(old(Mem()), id, same, picked)
      ensures picked == None ==>
                && Is(old(State()))
                && err == (var n := |D.NameHits(old(Mem()), id, same)|; if n == 0 then NotFound else Ambiguous(n))
      ensures picked.Some? ==>
                && name == old(Mem())[picked.value].name
                && err == (if fault.NoFault? then Nil else SaveFailed)
                && Is(D.Next(old(State()), D.Write(D.Drop(picked.value), if err == Nil then D.Saved else D.Failed)))
    {
      var found := FindById(id);
      if found.Some? {
        assert Mem()[found.value].id == id;
        picked := found;
        name, err := Remove(found.value, fault);
        return;
      }
      assert !D.HasId(Mem(), id);
      var hits := FindByName(id, same);
      if |hits| == 1 {
        picked := Some(hits[0]);
        name, err := Remove(hits[0], fault);
      } else {
        name, err, picked := "", if |hits| == 0 then NotFound else Ambiguous(|hits|), None;
      }
    }

    // ---------- enrollment window ----------

    method OpenEnrollment(code: string, d: nat, now: Time)
      modifies this`enrollCode, this`enrollExpires, this`enrollAttempts
      ensures Window() == W.Open(old(Window()), code, d, now)
    {
      enrollCode, enrollExpires, enrollAttempts := code, now + d, 0;
    }

    method CloseEnrollment(now: Time)
      modifies this`enrollCode, this`enrollExpires, this`graceUntil
      ensures Window() == W.Close(old(Window()), now)
    {
      enrollCode, enrollExpires, graceUntil := "", 0, now + 15_000_000_000;
    }

    method EnrollmentOpen(now: Time) returns (open: bool)
      ensures open == W.IsOpen(Window(), now)
    {
      return enrollCode != "" && now < enrollExpires;
    }

    method AcceptsUnauthenticated(now: Time) returns (accepts: bool)
      ensures accepts == W.AcceptsUnauthenticated(Window(), now)
    {
      var open := enrollCode != "" && now < enrollExpires;
      return open || now < graceUntil;
    }

    method CheckEnrollCode(guess: string, now: Time) returns (ok: bool)
      modifies this`enrollCode, this`enrollExpires, this`enrollAttempts
      ensures (Window(), ok) == W.Check(old(Window()), guess, now, maxAttempts)
    {
      if enrollCode == "" || now > enrollExpires {
        return false;
      }
      ok := W.Normalize(guess) == enrollCode;
      if !ok {
        enrollAttempts := enrollAttempts + 1;
        if enrollAttempts >= maxAttempts {
          enrollCode, enrollExpires := "", 0;
        }
      }
    }
  }
}
