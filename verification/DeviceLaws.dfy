/** Which device keys are active: a closed form over the events, and what time and extensions do to it. */
module DeviceLaws {
  import opened ChainLaws
  import opened Dicts
  import opened Events
  import opened Lists
  import opened Options
  import opened Sigchains

  /** Event `e` puts `key` on the device list at time `t`. */
  predicate Adds(e: Event, key: string, t: int) {
    DeviceAdded(e, t).Some? && DeviceAdded(e, t).value.pubkey == key
  }

  /** `i` is the last event that puts `key` on the list. */
  ghost predicate LastAdd(chain: Chain, i: int, key: string, t: int) {
    && 0 <= i < |chain|
    && Adds(chain[i], key, t)
    && forall j :: i < j < |chain| ==> !Adds(chain[j], key, t)
  }

  ghost predicate RevokedIn(chain: Chain, key: string) {
    exists i :: 0 <= i < |chain| && Revokes(chain[i], key)
  }

  ghost predicate IsActive(chain: Chain, key: string, t: int) {
    exists info :: info in ActiveDevices(chain, t) && info.pubkey == key
  }

  lemma LastAddOfSnoc(chain: Chain, i: int, key: string, t: int)
    requires chain != []
    ensures var n := |chain| - 1;
      LastAdd(chain, i, key, t) <==> if Adds(chain[n], key, t) then i == n else LastAdd(chain[..n], i, key, t)
  {
  }

  /** The device dictionary holds, for each key, what its last add event says. */
  lemma {:induction false} DictHoldsLastAdd(chain: Chain, t: int, key: string)
    ensures DistinctKeys(DeviceDict(chain, t))
    ensures Lookup(DeviceDict(chain, t), key).Some? <==> exists i :: LastAdd(chain, i, key, t)
    ensures forall i :: LastAdd(chain, i, key, t) ==> Lookup(DeviceDict(chain, t), key) == DeviceAdded(chain[i], t)
  {
    if chain != [] {
      var n := |chain| - 1;
      var before := chain[..n];
      DictHoldsLastAdd(before, t, key);
      var added := DeviceAdded(chain[n], t);
      if added.Some? { PutEffect(DeviceDict(before, t), added.value.pubkey, added.value); }
      forall i ensures LastAdd(chain, i, key, t) <==> if Adds(chain[n], key, t) then i == n else LastAdd(before, i, key, t) {
        LastAddOfSnoc(chain, i, key, t);
      }
      if Adds(chain[n], key, t) {
        assert LastAdd(chain, n, key, t);
      } else {
        assert Lookup(DeviceDict(chain, t), key) == Lookup(DeviceDict(before, t), key);
      }
    }
  }

  lemma {:induction false} EntriesAreUnexpired(chain: Chain, t: int)
    ensures forall k: string, info :: (k, info) in DeviceDict(chain, t) ==> info.pubkey == k && !Expired(info.expires, t)
  {
    if chain != [] {
      var n := |chain| - 1;
      var d := DeviceDict(chain[..n], t);
      EntriesAreUnexpired(chain[..n], t);
      var added := DeviceAdded(chain[n], t);
      if added.Some? { PutEntries(d, added.value.pubkey, added.value); }
    }
  }

  lemma {:induction false} PutEntries<K, V>(d: Dict<K, V>, k: K, v: V)
    ensures forall x :: x in Put(d, k, v) ==> x == (k, v) || x in d
  {
    if d != [] && d[0].0 != k {
      PutEntries(d[1..], k, v);
    }
  }

  lemma RevokedKeysAreRevoked(chain: Chain, key: string)
    ensures key in RevokedKeys(chain) <==> RevokedIn(chain, key)
  {
    if RevokedIn(chain, key) {
      var i :| 0 <= i < |chain| && Revokes(chain[i], key);
      assert chain[i] in chain;
    }
    if key in RevokedKeys(chain) {
      var e :| e in chain && e.body.RevokeDevice? && e.body.revokedDevice == key;
      var i :| 0 <= i < |chain| && chain[i] == e;
      assert Revokes(chain[i], key);
    }
  }

  /** The active devices are the dictionary's entries whose key no event revokes. */
  lemma ActiveIsUnrevokedEntry(chain: Chain, t: int, info: DeviceInfo)
    ensures info in ActiveDevices(chain, t) <==>
      Lookup(DeviceDict(chain, t), info.pubkey) == Some(info) && !RevokedIn(chain, info.pubkey)
  {
    var d := DeviceDict(chain, t);
    var key := info.pubkey;
    var revoked := RevokedKeys(chain);
    FilterMembers(x => StillActive(revoked, t, x), Values(d));
    RevokedKeysAreRevoked(chain, key);
    EntriesAreUnexpired(chain, t);
    DictHoldsLastAdd(chain, t, key);
    LookupIsMembership(d, key);
    if info in Values(d) {
      var i :| 0 <= i < |Values(d)| && Values(d)[i] == info;
      assert d[i] in d && d[i] == (d[i].0, info);
    }
    if Lookup(d, key) == Some(info) {
      var i :| 0 <= i < |d| && d[i].0 == key;
      assert Values(d)[i] == info;
      assert d[i] in d;
    }
  }

  /**
   A device is active at `t` exactly when no event revokes its key and some event puts the key on the list at `t`;
   its details are those of the last such event.
   */
  lemma DeviceActivity(chain: Chain, t: int, info: DeviceInfo)
    ensures info in ActiveDevices(chain, t) <==>
      && !RevokedIn(chain, info.pubkey)
      && exists i :: LastAdd(chain, i, info.pubkey, t) && DeviceAdded(chain[i], t) == Some(info)
  {
    ActiveIsUnrevokedEntry(chain, t, info);
    DictHoldsLastAdd(chain, t, info.pubkey);
  }

  lemma {:induction false} SomeLastAdd(chain: Chain, i: int, key: string, t: int) returns (k: int)
    requires 0 <= i < |chain| && Adds(chain[i], key, t)
    ensures LastAdd(chain, k, key, t)
    decreases |chain| - i
  {
    if j :| i < j < |chain| && Adds(chain[j], key, t) {
      k := SomeLastAdd(chain, j, key, t);
    } else {
      k := i;
    }
  }

  lemma ActiveKey(chain: Chain, key: string, t: int)
    ensures IsActive(chain, key, t) <==> !RevokedIn(chain, key) && exists i :: 0 <= i < |chain| && Adds(chain[i], key, t)
  {
    if IsActive(chain, key, t) {
      var info :| info in ActiveDevices(chain, t) && info.pubkey == key;
      DeviceActivity(chain, t, info);
    }
    if i :| !RevokedIn(chain, key) && 0 <= i < |chain| && Adds(chain[i], key, t) {
      var k := SomeLastAdd(chain, i, key, t);
      DeviceActivity(chain, t, DeviceAdded(chain[k], t).value);
    }
  }

  /** On a verified chain the listed keys are the genesis key and the added keys that have not expired. */
  lemma ActiveKeyOfValidChain(c: Crypto, chain: Chain, key: string, t: int)
    requires Valid(c, chain)
    ensures chain[0].body.Genesis?
    ensures IsActive(chain, key, t) <==>
      && !RevokedIn(chain, key)
      && (|| chain[0].body.pubkey == key
          || exists i :: 0 <= i < |chain| && chain[i].body.AddDevice? && chain[i].body.devicePubkey == key
                         && !Expired(chain[i].body.deviceExpires, t))
  {
    ActiveKey(chain, key, t);
    forall i: nat | i < |chain| ensures chain[i].body.Genesis? <==> i == 0 { Linked(c, chain, i); }
    if chain[0].body.pubkey == key { assert Adds(chain[0], key, t); }
    if i :| 0 <= i < |chain| && chain[i].body.AddDevice? && chain[i].body.devicePubkey == key
            && !Expired(chain[i].body.deviceExpires, t) {
      assert Adds(chain[i], key, t);
    }
  }

  /** On a fixed chain time only removes active keys. */
  lemma ActiveKeysShrink(chain: Chain, key: string, t: int, t': int)
    requires t <= t' && IsActive(chain, key, t')
    ensures IsActive(chain, key, t)
  {
    ActiveKey(chain, key, t');
    ActiveKey(chain, key, t);
    var i :| 0 <= i < |chain| && Adds(chain[i], key, t');
    assert Adds(chain[i], key, t);
  }

  /** A revoked key is never active again, in any extension and at any time. */
  lemma RevocationIsFinal(chain: Chain, ext: Chain, key: string, t: int)
    requires chain <= ext && RevokedIn(chain, key)
    ensures !IsActive(ext, key, t)
  {
    var i :| 0 <= i < |chain| && Revokes(chain[i], key);
    assert Revokes(ext[i], key);
    ActiveKey(ext, key, t);
  }

  /** Each key is listed at most once. */
  lemma OneEntryPerKey(chain: Chain, t: int, a: DeviceInfo, b: DeviceInfo)
    requires a in ActiveDevices(chain, t) && b in ActiveDevices(chain, t) && a.pubkey == b.pubkey
    ensures a == b
  {
    ActiveIsUnrevokedEntry(chain, t, a);
    ActiveIsUnrevokedEntry(chain, t, b);
  }
}
