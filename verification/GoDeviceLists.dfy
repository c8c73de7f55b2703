/** The active devices that the Python and the Go implementation list for the same events. */
module GoDeviceLists {
  import opened Dicts
  import opened Events
  import opened GoAgreement
  import opened GoSigchains
  import opened Lists
  import opened Options
  import opened Sigchains

  /** The Go view of a Python device record. */
  function AsGoDevice(d: DeviceInfo): GoDevice {
    GoDevice(d.pubkey, d.name, d.capabilities.GetOr([]), Clamp(d.addedAt), Narrowed(d.expires))
  }

  function AsGoDevices(ds: seq<DeviceInfo>): seq<GoDevice> {
    seq(|ds|, i requires 0 <= i < |ds| => AsGoDevice(ds[i]))
  }

  /** The device of an added key, as Go lists it. */
  function GoDeviceOf(e: Event): GoDevice
    requires e.body.AddDevice?
  {
    GoDevice(e.body.devicePubkey, e.body.deviceLabel, e.body.capabilities.GetOr([]), Clamp(e.timestamp),
             Narrowed(e.body.deviceExpires))
  }

  /** The key has expired by Python's reading, and not by Go's. */
  predicate Misread(e: Event, t: int) {
    e.body.AddDevice? && Expired(e.body.deviceExpires, t) && !Expired(Narrowed(e.body.deviceExpires), t)
  }

  // ---------------------------------------------------------------- what an event adds and revokes

  lemma DeviceAddedAgrees(e: Event, t: int)
    ensures GoDeviceAdded(ToDict(e), t) ==
      if Misread(e, t) then Some(GoDeviceOf(e))
      else if DeviceAdded(e, t).Some? then Some(AsGoDevice(DeviceAdded(e, t).value))
      else None
  {
    ReadHeader(e);
    if e.body.Genesis? {
      BodyHolds(e);
      GenesisKeys(e.body, ToDict(e));
    } else if e.body.AddDevice? {
      ReadDevice(e);
    } else {
      NotGenesis(e.body);
      NotAddDevice(e.body);
    }
  }

  lemma NotAddDevice(b: Body)
    ensures TypeName(b) == "add_device" <==> b.AddDevice?
  {
  }

  lemma RevokedByAgrees(e: Event)
    ensures GoRevokedBy(ToDict(e)) == RevokedBy(e)
  {
    ReadHeader(e);
    if e.body.RevokeDevice? {
      BodyHolds(e);
      RevokeDeviceReadBack(e.body, ToDict(e));
    } else {
      NotRevokeDevice(e.body);
    }
  }

  lemma NotRevokeDevice(b: Body)
    ensures TypeName(b) == "revoke_device" <==> b.RevokeDevice?
  {
  }

  lemma RevokedKeysSnoc(events: Chain)
    requires events != []
    ensures var n := |events| - 1;
      RevokedKeys(events) == RevokedKeys(events[..n]) + RevokedBy(events[n])
  {
    assert events == events[..|events| - 1] + [events[|events| - 1]];
  }

  lemma {:induction false} RevokedAgrees(events: Chain)
    ensures GoRevoked(RawFields(events)) == RevokedKeys(events)
  {
    if events != [] {
      var n := |events| - 1;
      RawOfSnoc(events);
      RevokedAgrees(events[..n]);
      RevokedByAgrees(events[n]);
      RevokedKeysSnoc(events);
    }
  }


  // ---------------------------------------------------------------- lists of devices

  predicate DistinctDevices(list: seq<GoDevice>) {
    forall i, j :: 0 <= i < j < |list| ==> list[i].pubkey != list[j].pubkey
  }

  /** The list with a device in place of the one of its key, or at the end. */
  function PutDevice(list: seq<GoDevice>, d: GoDevice): seq<GoDevice> {
    if list == [] then [d]
    else if list[0].pubkey == d.pubkey then [d] + list[1..]
    else [list[0]] + PutDevice(list[1..], d)
  }

  lemma HeadIsApart(list: seq<GoDevice>)
    requires DistinctDevices(list) && list != []
    ensures DistinctDevices(list[1..]) && forall x <- list[1..] :: x.pubkey != list[0].pubkey
  {
  }

  lemma AddHead(d: GoDevice, list: seq<GoDevice>)
    requires DistinctDevices(list) && forall x <- list :: x.pubkey != d.pubkey
    ensures DistinctDevices([d] + list)
  {
  }

  lemma {:induction false} PutDeviceEffect(list: seq<GoDevice>, d: GoDevice)
    requires DistinctDevices(list)
    ensures DistinctDevices(PutDevice(list, d)) && d in PutDevice(list, d)
    ensures forall x <- PutDevice(list, d) :: x == d || x in list
    ensures PutDevice(list, d) == list <==> d in list
  {
    if list != [] {
      assert list == [list[0]] + list[1..];
      PutDeviceEffect(list[1..], d);
      HeadIsApart(list);
      if list[0].pubkey != d.pubkey { AddHead(list[0], PutDevice(list[1..], d)); }
    }
  }

  lemma {:induction false} PutKept(keep: GoDevice -> bool, list: seq<GoDevice>, d: GoDevice)
    requires forall x: GoDevice, y: GoDevice :: x.pubkey == y.pubkey ==> keep(x) == keep(y)
    ensures Filter(keep, PutDevice(list, d)) == if keep(d) then PutDevice(Filter(keep, list), d) else Filter(keep, list)
  {
    if list != [] && list[0].pubkey != d.pubkey { PutKept(keep, list[1..], d); }
  }

  /** The devices added, in the order their keys came first. */
  function Built(added: seq<Option<GoDevice>>): seq<GoDevice> {
    if added == [] then []
    else
      var before, last := Built(added[..|added| - 1]), added[|added| - 1];
      if last.Some? then PutDevice(before, last.value) else before
  }

  function NotIn(revoked: set<string>): GoDevice -> bool {
    (d: GoDevice) => d.pubkey !in revoked
  }

  function Unrevoked(revoked: set<string>, list: seq<GoDevice>): seq<GoDevice> {
    Filter(NotIn(revoked), list)
  }

  lemma {:induction false} BuiltDistinct(added: seq<Option<GoDevice>>)
    ensures DistinctDevices(Built(added))
  {
    if added != [] {
      BuiltDistinct(added[..|added| - 1]);
      var last := added[|added| - 1];
      if last.Some? { PutDeviceEffect(Built(added[..|added| - 1]), last.value); }
    }
  }

  lemma {:induction false} UnrevokedDistinct(revoked: set<string>, list: seq<GoDevice>)
    requires DistinctDevices(list)
    ensures DistinctDevices(Unrevoked(revoked, list))
  {
    if list != [] {
      HeadIsApart(list);
      UnrevokedDistinct(revoked, list[1..]);
      FilterMembers(NotIn(revoked), list[1..]);
      AddHead(list[0], Unrevoked(revoked, list[1..]));
    }
  }

  // ---------------------------------------------------------------- both lists are built alike

  function GoAdded(events: Chain, t: int): seq<Option<GoDevice>> {
    seq(|events|, i requires 0 <= i < |events| => GoDeviceAdded(ToDict(events[i]), t))
  }

  function PyAddedBy(e: Event, t: int): Option<GoDevice> {
    var added :- DeviceAdded(e, t);
    Some(AsGoDevice(added))
  }

  function PyAdded(events: Chain, t: int): seq<Option<GoDevice>> {
    seq(|events|, i requires 0 <= i < |events| => PyAddedBy(events[i], t))
  }

  lemma {:induction false} PutIsPutDevice(d: Dict<string, GoDevice>, v: GoDevice)
    requires forall i :: 0 <= i < |d| ==> d[i].1.pubkey == d[i].0
    ensures Values(Put(d, v.pubkey, v)) == PutDevice(Values(d), v)
  {
    if d != [] {
      PutIsPutDevice(d[1..], v);
      ValuesHead(d);
      ValuesHead(Put(d, v.pubkey, v));
    }
  }

  lemma ValuesHead<T>(d: Dict<string, T>)
    requires d != []
    ensures Values(d) == [d[0].1] + Values(d[1..])
  {
  }

  lemma {:induction false} GoIsBuilt(events: Chain, t: int)
    ensures Values(GoDeviceDict(RawFields(events), t)) == Built(GoAdded(events, t))
  {
    if events != [] {
      var n := |events| - 1;
      RawOfSnoc(events);
      GoIsBuilt(events[..n], t);
      assert GoAdded(events, t)[..n] == GoAdded(events[..n], t);
      KeysArePubkeys(RawFields(events[..n]), t);
      var added := GoDeviceAdded(ToDict(events[n]), t);
      if added.Some? { PutIsPutDevice(GoDeviceDict(RawFields(events[..n]), t), added.value); }
    }
  }

  predicate Current(d: GoDevice, t: int) {
    !(d.expires.Some? && d.expires.value < t)
  }

  lemma {:induction false} BuiltIsCurrent(added: seq<Option<GoDevice>>, t: int)
    requires forall a <- added :: a.Some? ==> Current(a.value, t)
    ensures forall d <- Built(added) :: Current(d, t)
  {
    if added != [] {
      var last, before := added[|added| - 1], added[..|added| - 1];
      BuiltIsCurrent(before, t);
      BuiltDistinct(before);
      if last.Some? { PutDeviceEffect(Built(before), last.value); }
    }
  }

  lemma AddedIsCurrent(ev: Raw, t: int)
    ensures var added := GoDeviceAdded(ev, t); added.Some? ==> Current(added.value, t)
  {
  }

  lemma GoBuiltIsCurrent(events: Chain, t: int)
    ensures forall d <- Built(GoAdded(events, t)) :: Current(d, t)
  {
    forall a | a in GoAdded(events, t) && a.Some? ensures Current(a.value, t) {
      var i :| 0 <= i < |events| && a == GoAdded(events, t)[i];
      AddedIsCurrent(ToDict(events[i]), t);
    }
    BuiltIsCurrent(GoAdded(events, t), t);
  }

  lemma GoListIsBuilt(events: Chain, t: int)
    ensures GoActiveDevices(RawFields(events), t) == Unrevoked(RevokedKeys(events), Built(GoAdded(events, t)))
  {
    var revoked := RevokedKeys(events);
    GoIsBuilt(events, t);
    GoBuiltIsCurrent(events, t);
    RevokedAgrees(events);
    CurrentIsActive(revoked, t, Built(GoAdded(events, t)));
  }

  lemma CurrentIsActive(revoked: set<string>, t: int, list: seq<GoDevice>)
    requires forall d <- list :: Current(d, t)
    ensures Filter(d => GoStillActive(revoked, t, d), list) == Unrevoked(revoked, list)
  {
    FilterAgree(d => GoStillActive(revoked, t, d), NotIn(revoked), list);
  }

  ghost predicate OwnKeys(d: Dict<string, DeviceInfo>) {
    forall i :: 0 <= i < |d| ==> d[i].1.pubkey == d[i].0
  }

  lemma {:induction false} PutKeepsOwnKeys(d: Dict<string, DeviceInfo>, v: DeviceInfo)
    requires OwnKeys(d)
    ensures OwnKeys(Put(d, v.pubkey, v))
    ensures forall x <- Values(Put(d, v.pubkey, v)) :: x == v || x in Values(d)
  {
    if d != [] {
      PutKeepsOwnKeys(d[1..], v);
      assert Values(d) == [d[0].1] + Values(d[1..]);
      assert Values(Put(d, v.pubkey, v))[1..] == Values(Put(d, v.pubkey, v)[1..]);
    }
  }

  lemma {:induction false} PutReads(d: Dict<string, DeviceInfo>, v: DeviceInfo)
    requires OwnKeys(d)
    ensures AsGoDevices(Values(Put(d, v.pubkey, v))) == PutDevice(AsGoDevices(Values(d)), AsGoDevice(v))
  {
    if d != [] {
      PutReads(d[1..], v);
      ReadsHead(d);
      ReadsHead(Put(d, v.pubkey, v));
    }
  }

  lemma ReadsHead(d: Dict<string, DeviceInfo>)
    requires d != []
    ensures AsGoDevices(Values(d)) == [AsGoDevice(d[0].1)] + AsGoDevices(Values(d[1..]))
  {
  }

  lemma {:induction false} PyIsBuilt(events: Chain, t: int)
    ensures OwnKeys(DeviceDict(events, t))
    ensures AsGoDevices(Values(DeviceDict(events, t))) == Built(PyAdded(events, t))
    ensures forall d <- Values(DeviceDict(events, t)) :: !Expired(d.expires, t)
  {
    if events != [] {
      var n := |events| - 1;
      PyIsBuilt(events[..n], t);
      assert PyAdded(events, t)[..n] == PyAdded(events[..n], t);
      var added := DeviceAdded(events[n], t);
      if added.Some? {
        PutKeepsOwnKeys(DeviceDict(events[..n], t), added.value);
        PutReads(DeviceDict(events[..n], t), added.value);
      }
    }
  }

  lemma {:induction false} FilterAgrees(infos: seq<DeviceInfo>, keep: DeviceInfo -> bool, goKeep: GoDevice -> bool)
    requires forall d <- infos :: goKeep(AsGoDevice(d)) == keep(d)
    ensures Filter(goKeep, AsGoDevices(infos)) == AsGoDevices(Filter(keep, infos))
  {
    if infos != [] {
      assert AsGoDevices(infos)[1..] == AsGoDevices(infos[1..]);
      FilterAgrees(infos[1..], keep, goKeep);
    }
  }

  lemma PyListIsBuilt(events: Chain, t: int)
    ensures AsGoDevices(ActiveDevices(events, t)) == Unrevoked(RevokedKeys(events), Built(PyAdded(events, t)))
  {
    var revoked := RevokedKeys(events);
    PyIsBuilt(events, t);
    FilterAgrees(Values(DeviceDict(events, t)), d => StillActive(revoked, t, d), NotIn(revoked));
  }

  /** The list after an event: a device is put on it unless its key was revoked, or a key revoked leaves it. */
  function Next(list: seq<GoDevice>, revoked: set<string>, added: Option<GoDevice>, more: set<string>): seq<GoDevice> {
    Unrevoked(more, if added.Some? && added.value.pubkey !in revoked then PutDevice(list, added.value) else list)
  }

  lemma BuiltSnoc(added: seq<Option<GoDevice>>, revoked: set<string>, more: set<string>)
    requires added != []
    ensures Unrevoked(revoked + more, Built(added))
         == Next(Unrevoked(revoked, Built(added[..|added| - 1])), revoked, added[|added| - 1], more)
  {
    var last, before := added[|added| - 1], Built(added[..|added| - 1]);
    FilterTwice(NotIn(more), NotIn(revoked), NotIn(revoked + more), Built(added));
    if last.Some? { PutKept(NotIn(revoked), before, last.value); }
  }

  lemma {:induction false} UnrevokedNone(list: seq<GoDevice>)
    ensures Unrevoked({}, list) == list
  {
    if list != [] { UnrevokedNone(list[1..]); }
  }

  // ---------------------------------------------------------------- when the lists agree

  /** Both implementations list the same active devices, with the same details, in the same order. */
  ghost predicate SameList(events: Chain, t: int) {
    GoActiveDevices(RawFields(events), t) == AsGoDevices(ActiveDevices(events, t))
  }

  ghost function SameListAt(t: int): Chain -> bool {
    (events: Chain) => SameList(events, t)
  }

  /** Event `n` adds a key that Python alone takes for expired, that was not revoked, and that does not stand on the list
      with the same details already. */
  predicate Differs(events: Chain, n: nat, t: int)
    requires n < |events|
  {
    && Misread(events[n], t)
    && events[n].body.devicePubkey !in RevokedKeys(events[..n])
    && GoDeviceOf(events[n]) !in AsGoDevices(ActiveDevices(events[..n], t))
  }

  predicate NeverDiffers(events: Chain, t: int) {
    forall n :: 0 <= n < |events| ==> !Differs(events, n, t)
  }

  lemma NeverDiffersSnoc(events: Chain, t: int)
    requires events != []
    ensures NeverDiffers(events, t) <==> NeverDiffers(events[..|events| - 1], t) && !Differs(events, |events| - 1, t)
  {
    var m := |events| - 1;
    forall n | 0 <= n < m ensures Differs(events[..m], n, t) <==> Differs(events, n, t) {
      assert events[..m][..n] == events[..n] && events[..m][n] == events[n];
    }
  }

  lemma GoNext(events: Chain, t: int)
    requires events != []
    ensures var m := |events| - 1;
      GoActiveDevices(RawFields(events), t)
        == Next(GoActiveDevices(RawFields(events[..m]), t), RevokedKeys(events[..m]),
                GoDeviceAdded(ToDict(events[m]), t), RevokedBy(events[m]))
  {
    var m := |events| - 1;
    var added := GoAdded(events, t);
    RevokedKeysSnoc(events);
    GoListIsBuilt(events, t);
    GoListIsBuilt(events[..m], t);
    assert |added| == |events| && added[..m] == GoAdded(events[..m], t) && added[m] == GoDeviceAdded(ToDict(events[m]), t);
    BuiltSnoc(added, RevokedKeys(events[..m]), RevokedBy(events[m]));
  }

  lemma PyNext(events: Chain, t: int)
    requires events != []
    ensures var m := |events| - 1;
      AsGoDevices(ActiveDevices(events, t))
        == Next(AsGoDevices(ActiveDevices(events[..m], t)), RevokedKeys(events[..m]), PyAddedBy(events[m], t),
                RevokedBy(events[m]))
  {
    var m := |events| - 1;
    var added := PyAdded(events, t);
    RevokedKeysSnoc(events);
    PyListIsBuilt(events, t);
    PyListIsBuilt(events[..m], t);
    assert |added| == |events| && added[..m] == PyAdded(events[..m], t) && added[m] == PyAddedBy(events[m], t);
    BuiltSnoc(added, RevokedKeys(events[..m]), RevokedBy(events[m]));
  }

  lemma LastListAgrees(events: Chain, t: int)
    requires events != [] && SameList(events[..|events| - 1], t)
    ensures SameList(events, t) <==> !Differs(events, |events| - 1, t)
  {
    var m := |events| - 1;
    GoNext(events, t);
    PyNext(events, t);
    DeviceAddedAgrees(events[m], t);
    if Misread(events[m], t) {
      PyListIsBuilt(events[..m], t);
      MisreadDiffers(events[..m], events[m], t);
    }
  }

  /** Putting the misread device into the list changes it exactly if it is not there already. */
  lemma MisreadDiffers(before: Chain, e: Event, t: int)
    requires Misread(e, t)
    ensures var list := Unrevoked(RevokedKeys(before), Built(PyAdded(before, t)));
      && Unrevoked({}, list) == list
      && Unrevoked({}, PutDevice(list, GoDeviceOf(e))) == PutDevice(list, GoDeviceOf(e))
      && (PutDevice(list, GoDeviceOf(e)) == list <==> GoDeviceOf(e) in list)
  {
    var list := Unrevoked(RevokedKeys(before), Built(PyAdded(before, t)));
    UnrevokedNone(list);
    UnrevokedNone(PutDevice(list, GoDeviceOf(e)));
    BuiltDistinct(PyAdded(before, t));
    UnrevokedDistinct(RevokedKeys(before), Built(PyAdded(before, t)));
    PutDeviceEffect(list, GoDeviceOf(e));
  }

  /** Go and Python list the same devices for a chain and all its beginnings exactly if none of its events adds a key that
      Python alone takes for expired and that would change the list. */
  lemma {:induction false} ActiveDevicesAgree(events: Chain, t: int)
    ensures OnBeginnings(SameListAt(t), events) <==> NeverDiffers(events, t)
  {
    if events == [] {
      assert SameListAt(t)([]) by { assert RawFields([]) == []; }
    } else {
      var m := |events| - 1;
      ActiveDevicesAgree(events[..m], t);
      OnBeginningsSnoc(SameListAt(t), events);
      NeverDiffersSnoc(events, t);
      assert OnBeginnings(SameListAt(t), events[..m]) ==> SameListAt(t)(events[..m][..m]);
      assert events[..m][..m] == events[..m];
      if SameList(events[..m], t) { LastListAgrees(events, t); }
    }
  }

  /** At a time that fits, such a key is one whose expiry lies below Go's integers. */
  lemma MisreadExactly(e: Event, t: int)
    requires IsInt64(t)
    ensures Misread(e, t) <==> e.body.AddDevice? && e.body.deviceExpires.Some? && e.body.deviceExpires.value < -0x8000_0000_0000_0000
  {
  }
}
