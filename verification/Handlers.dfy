/** The pairing and renewal requests of agent/internal/api/handlers.go, each run without interruption. */
module Handlers {
  import opened Common
  import D = Devices
  import S = Store
  import W = PairingWindow

  type Time = D.Time

  /** What the request and the libraries around it yield: the parsed body, the key, the issued certificate. */
  datatype EnrollInput = EnrollInput(
    readable: bool, guess: string, keyOk: bool, name: string,
    issued: Option<(string, Time)>, id: string, tokenHash: Option<string>)

  datatype EnrollReply = NoWindow | BadRequest | WrongCode | BadKey | NoCertificate | StorageError | Paired(id: string)

  function DeviceFor(r: EnrollInput, enrolled: Time): D.Device
    requires r.issued.Some? && r.tokenHash.Some?
  {
    D.Device(r.id, if r.name == "" then "Unknown device" else r.name, r.issued.value.0, r.tokenHash.value,
             enrolled, enrolled, r.issued.value.1)
  }

  /** The call of `Add` with what was issued. */
  method StoreDevice(store: S.Store, r: EnrollInput, now: Time, fault: S.Fault) returns (stored: bool)
    requires store.Valid() && r.issued.Some?
    modifies store`devices, store.disk
    ensures store.Valid()
    ensures stored <==> r.tokenHash.Some? && fault.NoFault?
    ensures stored ==> store.Mem() == store.Stored() == old(store.Mem())[r.issued.value.0 := DeviceFor(r, now)]
    ensures !stored ==> store.Stored() == old(store.Stored())
    ensures !stored ==> store.Mem() == if r.tokenHash.Some? then old(store.Mem()) - {r.issued.value.0}
                                       else old(store.Mem())
  {
    var (fp, notAfter) := r.issued.value;
    assert r.tokenHash.Some? ==>
        D.RolledBack(store.Mem(), D.AddDevice(DeviceFor(r, now))) == store.Mem() - {fp};
    var name := if r.name == "" then "Unknown device" else r.name;
    var d := store.Add(name, fp, notAfter, r.id, r.tokenHash, now, now, fault);
    return d != null;
  }

  /** The tests before anything is issued; `refusal` is the answer if one of them ends the request. A guess counts
      only if the window was open and the request readable. */
  method CheckRequest(store: S.Store, r: EnrollInput, t0: Time, t1: Time) returns (refusal: Option<EnrollReply>)
    modifies store`enrollCode, store`enrollExpires, store`enrollAttempts
    ensures var open := old(store.enrollCode) != "" && t0 < old(store.enrollExpires);
            var right := t1 <= old(store.enrollExpires) && W.Normalize(r.guess) == old(store.enrollCode);
            && refusal == (if !open then Some(NoWindow) else if !r.readable then Some(BadRequest)
                           else if !right then Some(WrongCode) else None)
            && store.Window() == if open && r.readable
                                 then W.Check(old(store.Window()), r.guess, t1, store.maxAttempts).0
                                 else old(store.Window())
  {
    var open := store.EnrollmentOpen(t0);
    if !open {
      return Some(NoWindow);
    }
    if !r.readable {
      return Some(BadRequest);
    }
    var ok := store.CheckEnrollCode(r.guess, t1);
    return if ok then None else Some(WrongCode);
  }

  /** Everything after the code was accepted. */
  method PairDevice(store: S.Store, r: EnrollInput, t2: Time, t3: Time, fault: S.Fault) returns (reply: EnrollReply)
    requires store.Valid()
    modifies store, store.disk
    ensures store.Valid()
    ensures reply.Paired? <==> r.keyOk && r.issued.Some? && r.tokenHash.Some? && fault.NoFault?
    ensures reply.Paired? ==>
              && store.Mem() == store.Stored() == old(store.Mem())[r.issued.value.0 := DeviceFor(r, t2)]
              && store.Window() == W.Close(old(store.Window()), t3) && reply.id == r.id
    ensures !reply.Paired? ==>
              && reply == (if !r.keyOk then BadKey else if r.issued.None? then NoCertificate else StorageError)
              && store.Stored() == old(store.Stored()) && store.Window() == old(store.Window())
              && store.Mem() == (if reply == StorageError && r.tokenHash.Some?
                                 then old(store.Mem()) - {r.issued.value.0} else old(store.Mem()))
  {
    if !r.keyOk {
      return BadKey;
    }
    if r.issued.None? {
      return NoCertificate;
    }
    var stored := StoreDevice(store, r, t2, fault);
    if !stored {
      return StorageError;
    }
    store.CloseEnrollment(t3);
    return Paired(r.id);
  }

  /** Pairs one device or none. Success needs a window that was open, then a guess compared in time and equal to
      its code; it stores the device in memory and on disk and burns the code. Anything else leaves the disk as it
      was and the window open to another attempt, and takes out of memory at most a device whose fingerprint the new
      certificate shares. */
  method HandleEnroll(store: S.Store, r: EnrollInput, t0: Time, t1: Time, t2: Time, t3: Time, fault: S.Fault)
    returns (reply: EnrollReply)
    requires store.Valid()
    modifies store, store.disk
    ensures store.Valid()
    ensures var open := old(store.enrollCode) != "" && t0 < old(store.enrollExpires);
            var right := t1 <= old(store.enrollExpires) && W.Normalize(r.guess) == old(store.enrollCode);
            && (reply == NoWindow <==> !open)
            && (reply == BadRequest <==> open && !r.readable)
            && (reply == WrongCode <==> open && r.readable && !right)
            && (reply == BadKey <==> open && r.readable && right && !r.keyOk)
            && (reply == NoCertificate <==> open && r.readable && right && r.keyOk && r.issued.None?)
            && (reply == StorageError <==> open && r.readable && right && r.keyOk && r.issued.Some?
                                           && !(r.tokenHash.Some? && fault.NoFault?))
            && (reply.Paired? <==> open && r.readable && right && r.keyOk && r.issued.Some?
                                   && r.tokenHash.Some? && fault.NoFault?)
    ensures reply in {NoWindow, BadRequest, WrongCode} ==> store.Mem() == old(store.Mem())
    ensures reply == WrongCode && t1 <= old(store.enrollExpires) ==>
              && store.enrollAttempts == old(store.enrollAttempts) + 1
              && store.enrollCode == (if store.enrollAttempts >= store.maxAttempts then "" else old(store.enrollCode))
    ensures !reply.Paired? && !(reply == WrongCode && t1 <= old(store.enrollExpires)) ==>
              store.Window() == old(store.Window())
    ensures reply.Paired? ==>
              && store.Mem() == store.Stored()
                 == old(store.Mem())[r.issued.value.0 :=
                      D.Device(r.id, if r.name == "" then "Unknown device" else r.name, r.issued.value.0,
                               r.tokenHash.value, t2, t2, r.issued.value.1)]
              && store.enrollCode == "" && store.graceUntil == t3 + 15_000_000_000 && reply.id == r.id
    ensures !reply.Paired? ==> store.Stored() == old(store.Stored())
    ensures !reply.Paired? && (r.issued.None? || r.issued.value.0 !in old(store.Mem())) ==>
              store.Mem() == old(store.Mem())
  {
    var refusal := CheckRequest(store, r, t0, t1);
    if refusal.Some? {
      return refusal.value;
    }
    if r.issued.Some? && r.issued.value.0 !in store.Mem() {
      WithoutAbsent(store.Mem(), r.issued.value.0);
    }
    reply := PairDevice(store, r, t2, t3, fault);
  }

  lemma WithoutAbsent(t: D.Table, fp: string)
    requires fp !in t
    ensures t - {fp} == t
  {}

  /** Renews the certificate a request was authenticated with. On success the old fingerprint is out of memory and
      disk and the new one is in; on failure, with an unused new fingerprint, nothing changed. */
  method HandleRenew(store: S.Store, me: D.Device, keyOk: bool, issued: Option<(string, Time)>, fault: S.Fault)
    returns (renewed: bool)
    requires store.Valid()
    modifies store, store.devices.Values, store.disk
    ensures store.Valid() && store.Window() == old(store.Window())
    ensures renewed <==> keyOk && issued.Some? && me.fingerprint in old(store.Mem()) && fault.NoFault?
    ensures renewed ==>
              && store.Mem() == store.Stored()
                 == (old(store.Mem()) - {me.fingerprint})[issued.value.0 :=
                      old(store.Mem())[me.fingerprint].(fingerprint := issued.value.0, expiresAt := issued.value.1)]
              && (issued.value.0 != me.fingerprint ==> D.Gone(store.State(), me.fingerprint))
    ensures !renewed ==> store.Stored() == old(store.Stored())
    ensures !renewed && (issued.None? || issued.value.0 !in old(store.Mem())) ==> store.Mem() == old(store.Mem())
  {
    if !keyOk || issued.None? {
      return false;
    }
    var (fp, notAfter) := issued.value;
    if me.fingerprint in store.Mem() {
      D.FailedRenewRestoresIffFresh(store.State(), me.fingerprint, fp, notAfter);
    }
    var d := store.Replace(me.fingerprint, fp, notAfter, fault);
    return d != null;
  }
}
