/** db.c: a database as two dictionaries and, in cluster mode, the slot index, changed in place by the keyspace
    operations. Each operation keeps the three in agreement and has the effect on the dataset that Commands
    gives it; the assertions of the source are preconditions here, so they cannot fire. */
module Databases {
  import opened Wire
  import opened Keyspace
  import opened Commands
  import opened Slots

  class RedisServer {
    var clusterEnabled: bool
    var loading: bool
    /** server.masterhost is set. */
    var slave: bool
    var slotsToKeys: seq<SlotEntry>
    /** What has been handed to feedAppendOnlyFile. */
    var fed: seq<Fed>
    var dirty: nat

    /** No key is expired here: that is left to the master, or to the time after loading. */
    predicate Passive()
      reads this
    {
      loading || slave
    }
  }

  /** The dataset two dictionaries stand for. */
  function ViewOf(id: nat, dict: map<Bytes, Obj>, expires: map<Bytes, int>): Dataset {
    map n | n in dict :: Key(id, n) := EntryAt(dict, expires, n)
  }

  lemma ViewAt(id: nat, dict: map<Bytes, Obj>, expires: map<Bytes, int>, n: Bytes)
    ensures Key(id, n) in ViewOf(id, dict, expires) <==> n in dict
    ensures n in dict ==> ViewOf(id, dict, expires)[Key(id, n)] == EntryAt(dict, expires, n)
  {
  }

  lemma ViewKeys(id: nat, dict: map<Bytes, Obj>, expires: map<Bytes, int>, k: Key)
    ensures k in ViewOf(id, dict, expires) <==> k.db == id && k.name in dict
  {
    assert k == Key(k.db, k.name);
  }

  function EntryAt(dict: map<Bytes, Obj>, expires: map<Bytes, int>, n: Bytes): Entry
    requires n in dict
  {
    Entry(dict[n], if n in expires then Some(expires[n]) else None)
  }

  lemma ViewPut(id: nat, dict: map<Bytes, Obj>, expires: map<Bytes, int>, n: Bytes, o: Obj)
    ensures ViewOf(id, dict[n := o], expires) ==
            ViewOf(id, dict, expires)[Key(id, n) := Entry(o, if n in expires then Some(expires[n]) else None)]
  {
    hide ViewOf;
    var a := ViewOf(id, dict[n := o], expires);
    var b := ViewOf(id, dict, expires)[Key(id, n) := Entry(o, if n in expires then Some(expires[n]) else None)];
    forall k
      ensures k in a <==> k in b
      ensures k in a ==> a[k] == b[k]
    {
      ViewKeys(id, dict[n := o], expires, k);
      ViewKeys(id, dict, expires, k);
      if k in a {
        ViewAt(id, dict[n := o], expires, k.name);
        ViewAt(id, dict, expires, k.name);
        assert k == Key(id, k.name);
      }
    }
    assert a == b;
  }

  lemma ViewDrop(id: nat, dict: map<Bytes, Obj>, expires: map<Bytes, int>, names: set<Bytes>)
    ensures ViewOf(id, dict - names, expires - names) ==
            ViewOf(id, dict, expires) - set n | n in names :: Key(id, n)
  {
    hide ViewOf;
    var gone := set n | n in names :: Key(id, n);
    var a, b := ViewOf(id, dict - names, expires - names), ViewOf(id, dict, expires) - gone;
    forall k
      ensures k in a <==> k in b
      ensures k in a ==> a[k] == b[k]
    {
      ViewKeys(id, dict - names, expires - names, k);
      ViewKeys(id, dict, expires, k);
      assert k == Key(k.db, k.name);
      assert k in gone <==> k.db == id && k.name in names;
      if k in a {
        ViewAt(id, dict - names, expires - names, k.name);
        ViewAt(id, dict, expires, k.name);
      }
    }
    assert a == b;
  }

  lemma ViewDelete(id: nat, dict: map<Bytes, Obj>, expires: map<Bytes, int>, n: Bytes)
    ensures ViewOf(id, dict - {n}, expires - {n}) == Without(ViewOf(id, dict, expires), Key(id, n))
  {
    hide ViewOf;
    ViewDrop(id, dict, expires, {n});
    assert (set m | m in {n} :: Key(id, m)) == {Key(id, n)};
  }

  /** The keys of a dataset that hash to a slot. */
  function InSlot(ks: Dataset, slot: nat): set<Key> {
    set k | k in ks && HashSlot(k.name) == slot
  }

  lemma ViewDropSlot(id: nat, dict: map<Bytes, Obj>, expires: map<Bytes, int>, slot: nat)
    ensures var gone, v := KeysOf(dict.Keys, slot), ViewOf(id, dict, expires);
            ViewOf(id, dict - gone, expires - gone) == v - InSlot(v, slot)
  {
    hide ViewOf, HashSlot;
    var gone, v := KeysOf(dict.Keys, slot), ViewOf(id, dict, expires);
    ViewDrop(id, dict, expires, gone);
    forall k
      ensures k in InSlot(v, slot) <==> k in set n | n in gone :: Key(id, n)
    {
      ViewKeys(id, dict, expires, k);
      assert k == Key(k.db, k.name);
    }
  }

  lemma ViewExpire(id: nat, dict: map<Bytes, Obj>, expires: map<Bytes, int>, n: Bytes, exp: Option<int>)
    requires n in dict
    ensures Key(id, n) in ViewOf(id, dict, expires)
    ensures var expires' := if exp.Some? then expires[n := exp.value] else expires - {n};
            var v := ViewOf(id, dict, expires);
            ViewOf(id, dict, expires') == v[Key(id, n) := v[Key(id, n)].(exp := exp)]
  {
    hide ViewOf;
    ViewAt(id, dict, expires, n);
    var expires' := if exp.Some? then expires[n := exp.value] else expires - {n};
    var v := ViewOf(id, dict, expires);
    var a, b := ViewOf(id, dict, expires'), v[Key(id, n) := v[Key(id, n)].(exp := exp)];
    forall k
      ensures k in a <==> k in b
      ensures k in a ==> a[k] == b[k]
    {
      ViewKeys(id, dict, expires', k);
      ViewKeys(id, dict, expires, k);
      if k in a {
        ViewAt(id, dict, expires', k.name);
        ViewAt(id, dict, expires, k.name);
        assert k == Key(id, k.name);
      }
    }
    assert a == b;
  }

  lemma MinusKey<V>(m: map<Bytes, V>, n: Bytes)
    ensures (m - {n}).Keys == m.Keys - {n} == (m - {n}).Keys - {n}
    ensures n in m ==> (m - {n}).Keys + {n} == m.Keys
    ensures n !in m ==> m - {n} == m
    ensures |m| == 0 ==> n !in m
  {
  }

  lemma MinusBoth(expires: set<Bytes>, dict: set<Bytes>, n: Bytes)
    requires expires <= dict
    ensures expires - {n} <= dict - {n}
  {
  }

  lemma PutOverDeleted(v: Dataset, k: Key, e: Entry)
    ensures Without(v, k)[k := e] == v[k := e]
  {
    assert Without(v, k)[k := e].Keys == v[k := e].Keys;
  }

  /** Looking one key up leaves the others. */
  lemma LookupOther(v: Dataset, k: Key, other: Key, passive: bool, now: int)
    requires k != other
    ensures var w := Lookup(v, other, passive, now).ks;
            (k in w <==> k in v) && (k in v ==> w[k] == v[k])
  {
  }

  lemma LookupLeft(a: Dataset, b: Dataset, k: Key, passive: bool, now: int)
    requires a.Keys !! b.Keys && k !in b
    ensures Lookup(a + b, k, passive, now) == Effect(Lookup(a, k, passive, now).ks + b, Lookup(a, k, passive, now).feds)
  {
    assert Without(a + b, k) == Without(a, k) + b;
  }

  lemma MoveAcross(a: Dataset, b: Dataset, src: Key, dst: Key, e: Entry)
    requires a.Keys !! b.Keys && src !in b && dst !in a && src != dst
    ensures Without((a + b)[dst := e], src) == Without(a, src) + b[dst := e]
  {
    var x, y := Without((a + b)[dst := e], src), Without(a, src) + b[dst := e];
    assert x.Keys == y.Keys;
    assert x == y;
  }

  /** Setting the expire time of what was just put is putting it with that time. */
  lemma PutThenExpire(v: Dataset, k: Key, e: Entry, exp: Option<int>)
    ensures v[k := e][k := e.(exp := exp)] == v[k := e.(exp := exp)]
  {
  }

  lemma ViewEmpty(id: nat)
    ensures ViewOf(id, map[], map[]) == map[]
  {
    assert ViewOf(id, map[], map[]).Keys == {};
  }

  /** Commands that concern one database: all but MOVE outside cluster mode. */
  predicate Local(c: Command, cluster: bool) {
    (c.Move? ==> cluster) && (c.Add? ==> RowsOk(c.kind, c.rows))
  }

  /** A command on one database; MOVE is refused in cluster mode. */
  function ExecLocal(ks: Dataset, db: int, argv: Argv, c: Command, passive: bool, clock: Clock): Effect
    requires c.Add? ==> RowsOk(c.kind, c.rows)
  {
    if c.Move? then Effect(ks, []) else Exec(ks, db, argv, c, passive, clock)
  }

  /** What happens to a database: a command reaches call; a resynchronization or a cluster reset empties it; the
      cluster takes the keys of a slot away; the server becomes a slave or a master; a load begins or ends. */
  datatype Request =
    | Run(c: Command, argv: Argv, clock: Clock)
    | EmptyData
    | DropSlot(slot: nat)
    | SetRole(slave: bool)
    | SetLoading(loading: bool)

  predicate AllLocal(requests: seq<Request>, cluster: bool) {
    forall i :: 0 <= i < |requests| ==> IsLocal(requests[i], cluster)
  }

  predicate IsLocal(r: Request, cluster: bool) {
    (r.Run? ==> Local(r.c, cluster)) && (r.DropSlot? ==> cluster)
  }

  /** The dataset of a database, what the log has been given, and what decides about expiry. */
  datatype Served = Served(ks: Dataset, fed: seq<Fed>, loading: bool, slave: bool)

  function ServeOne(s: Served, db: int, r: Request): Served
    requires r.Run? && r.c.Add? ==> RowsOk(r.c.kind, r.c.rows)
  {
    match r
    case Run(c, argv, clock) =>
      var e := ExecLocal(s.ks, db, argv, c, s.loading || s.slave, clock);
      s.(ks := e.ks, fed := s.fed + e.feds)
    case EmptyData => s.(ks := map[])
    case DropSlot(slot) => s.(ks := s.ks - InSlot(s.ks, slot))
    case SetRole(slave) => s.(slave := slave)
    case SetLoading(loading) => s.(loading := loading)
  }

  /** The requests one after the other. */
  function ServeAll(s: Served, db: int, requests: seq<Request>, cluster: bool): Served
    requires AllLocal(requests, cluster)
    decreases requests
  {
    if requests == [] then s
    else
      assert IsLocal(requests[0], cluster);
      ServeAll(ServeOne(s, db, requests[0]), db, requests[1..], cluster)
  }

  /** Any run is a shorter one and one request more. */
  lemma {:induction false} ServeOneMore(s: Served, db: int, requests: seq<Request>, r: Request, cluster: bool)
    requires AllLocal(requests, cluster) && IsLocal(r, cluster)
    ensures AllLocal(requests + [r], cluster) && ServeAll(s, db, [], cluster) == s
    ensures ServeAll(s, db, requests + [r], cluster) == ServeOne(ServeAll(s, db, requests, cluster), db, r)
    decreases requests
  {
    hide ServeOne;
    if requests == [] {
      assert requests + [r] == [r] && [r][1..] == [];
    } else {
      assert IsLocal(requests[0], cluster) && (requests + [r])[1..] == requests[1..] + [r];
      assert AllLocal(requests[1..], cluster) by {
        assert forall i :: 0 <= i < |requests[1..]| ==> requests[1..][i] == requests[i + 1];
      }
      ServeOneMore(ServeOne(s, db, requests[0]), db, requests[1..], r, cluster);
    }
  }

  lemma ShrinksBy<V>(m: map<Bytes, V>, n: Bytes)
    requires n in m
    ensures |m - {n}| < |m|
  {
    assert (m - {n})[n := m[n]] == m;
  }

  class RedisDb {
    const id: nat
    const server: RedisServer
    var dict: map<Bytes, Obj>
    var expires: map<Bytes, int>

    constructor (id: nat, server: RedisServer)
      requires server.clusterEnabled ==> id == 0 && server.slotsToKeys == []
      ensures this.id == id && this.server == server && Valid() && View() == map[]
    {
      this.id := id;
      this.server := server;
      dict := map[];
      expires := map[];
      new;
      ViewEmpty(id);
    }

    /** The dictionary of expire times never has a key the main one has not; in cluster mode, which has database 0
        only, the slot index holds exactly the keys of the database. */
    ghost predicate Valid()
      reads this, server
    {
      expires.Keys <= dict.Keys &&
      (server.clusterEnabled ==> id == 0 && Indexes(server.slotsToKeys, dict.Keys))
    }

    function View(): Dataset
      reads this
    {
      ViewOf(id, dict, expires)
    }

    function State(): Served
      reads this, server
    {
      Served(View(), server.fed, server.loading, server.slave)
    }

    // ---------- Slot index ----------

    method SlotToKeyAdd(key: Bytes)
      requires server.clusterEnabled && key !in dict && Indexes(server.slotsToKeys, dict.Keys)
      modifies server`slotsToKeys
      ensures Indexes(server.slotsToKeys, dict.Keys + {key})
    {
      hide Sorted, HashSlot;
      ghost var before := server.slotsToKeys;
      assert EntryOf(key) !in before;
      server.slotsToKeys := ZslInsert(server.slotsToKeys, EntryOf(key));
      forall x
        ensures x in server.slotsToKeys <==> x.name in dict.Keys + {key} && x == EntryOf(x.name)
      {
        assert x in before <==> x.name in dict.Keys && x == EntryOf(x.name);
      }
    }

    method SlotToKeyDel(key: Bytes)
      requires server.clusterEnabled && Indexes(server.slotsToKeys, dict.Keys + {key})
      modifies server`slotsToKeys
      ensures Indexes(server.slotsToKeys, dict.Keys - {key})
    {
      hide Sorted, HashSlot;
      ghost var before := server.slotsToKeys;
      server.slotsToKeys := ZslDelete(server.slotsToKeys, EntryOf(key));
      forall x
        ensures x in server.slotsToKeys <==> x.name in dict.Keys - {key} && x == EntryOf(x.name)
      {
        assert x in before <==> x.name in dict.Keys + {key} && x == EntryOf(x.name);
      }
    }

    // ---------- Dictionaries ----------

    /** The program is aborted if the key exists. */
    method DbAdd(key: Bytes, val: Obj)
      requires Valid() && key !in dict
      modifies this`dict, server`slotsToKeys
      ensures Valid() && dict == old(dict)[key := val]
      ensures View() == old(View())[Key(id, key) := Entry(val, None)]
    {
      hide Indexes, ViewOf;
      ViewPut(id, dict, expires, key, val);
      if server.clusterEnabled {
        SlotToKeyAdd(key);
      }
      dict := dict[key := val];
      assert dict.Keys == old(dict).Keys + {key};
    }

    /** The program is aborted if the key does not exist. */
    method DbOverwrite(key: Bytes, val: Obj)
      requires Valid() && key in dict
      modifies this`dict
      ensures Valid() && dict == old(dict)[key := val]
      ensures View() == old(View())[Key(id, key) := old(View())[Key(id, key)].(val := val)]
    {
      hide Indexes, ViewOf;
      ViewAt(id, dict, expires, key);
      ViewPut(id, dict, expires, key, val);
      dict := dict[key := val];
      assert dict.Keys == old(dict).Keys;
    }

    /** Deletes a key, its value and its expire time; 1 if there was such a key. */
    method DbDelete(key: Bytes) returns (there: bool)
      requires Valid()
      modifies this`dict, this`expires, server`slotsToKeys
      ensures Valid() && dict == old(dict) - {key} && expires == old(expires) - {key}
      ensures there == (key in old(dict)) && View() == Without(old(View()), Key(id, key))
    {
      hide Indexes, ViewOf, Without;
      ViewDelete(id, dict, expires, key);
      MinusKey(expires, key);
      MinusKey(dict, key);
      MinusBoth(expires.Keys, dict.Keys, key);
      if |expires| > 0 {
        expires := expires - {key};
      }
      there := key in dict;
      if there {
        dict := dict - {key};
        if server.clusterEnabled {
          SlotToKeyDel(key);
        }
      }
    }

    /** The program is aborted if the key is not in the main dictionary. */
    method RemoveExpire(key: Bytes) returns (removed: bool)
      requires Valid() && key in dict
      modifies this`expires
      ensures Valid() && expires == old(expires) - {key} && removed == (key in old(expires))
      ensures View() == old(View())[Key(id, key) := old(View())[Key(id, key)].(exp := None)]
    {
      hide Indexes, ViewOf;
      ViewExpire(id, dict, expires, key, None);
      removed := key in expires;
      expires := expires - {key};
    }

    /** The program is aborted if the key is not in the main dictionary. */
    method SetExpire(key: Bytes, when: int)
      requires Valid() && key in dict
      modifies this`expires
      ensures Valid() && expires == old(expires)[key := when]
      ensures View() == old(View())[Key(id, key) := old(View())[Key(id, key)].(exp := Some(when))]
    {
      hide Indexes, ViewOf;
      ViewExpire(id, dict, expires, key, Some(when));
      expires := expires[key := when];
    }

    /** -1 for a key without expire time; the program is aborted if a key with one is not in the main dictionary. */
    method GetExpire(key: Bytes) returns (when: int)
      requires Valid()
      ensures when == if Key(id, key) in View() then View()[Key(id, key)].GetExpire() else -1
    {
      hide Indexes, ViewOf;
      ViewAt(id, dict, expires, key);
      MinusKey(expires, key);
      if |expires| == 0 || key !in expires {
        return -1;
      }
      assert key in dict;
      when := expires[key];
    }

    // ---------- Expiry on access ----------

    method PropagateExpire(key: Bytes)
      modifies server`fed
      ensures server.fed == old(server.fed) + [Fed(id, DelArgv(key))]
    {
      server.fed := server.fed + [Fed(id, DelArgv(key))];
    }

    /** The answer says whether the key counts as expired; only a master that is not loading deletes it, and then the
        log gets a DEL. */
    method ExpireIfNeeded(key: Bytes, now: int) returns (expired: bool)
      requires Valid()
      modifies this`dict, this`expires, server`slotsToKeys, server`fed
      ensures Valid()
      ensures expired == (!server.loading && Key(id, key) in old(View()) && old(View())[Key(id, key)].Due(now))
      ensures var l := Lookup(old(View()), Key(id, key), server.Passive(), now);
              View() == l.ks && server.fed == old(server.fed) + l.feds
    {
      hide Indexes, ViewOf;
      ViewAt(id, dict, expires, key);
      var when := GetExpire(key);
      if when < 0 {
        return false;
      }
      if server.loading {
        return false;
      }
      if server.slave {
        return now > when;
      }
      if now <= when {
        return false;
      }
      PropagateExpire(key);
      expired := DbDelete(key);
    }

    /** A master's lookup leaves nothing to expire for the next one at the same reading. */
    lemma LookupAgain(ks: Dataset, k: Key, passive: bool, now: int)
      ensures var l := Lookup(ks, k, passive, now); Lookup(l.ks, k, passive, now) == Effect(l.ks, [])
    {
    }

    method LookupKey(key: Bytes, now: int) returns (val: Option<Obj>)
      requires Valid()
      modifies this`dict, this`expires, server`slotsToKeys, server`fed
      ensures Valid()
      ensures var l := Lookup(old(View()), Key(id, key), server.Passive(), now);
              View() == l.ks && server.fed == old(server.fed) + l.feds
      ensures val == if key in dict then Some(dict[key]) else None
    {
      hide Indexes, ViewOf, Lookup;
      var expired := ExpireIfNeeded(key, now);
      val := if key in dict then Some(dict[key]) else None;
    }

    /** The high level set: whatever was there, the key now has this value and no expire time. */
    method SetKey(key: Bytes, val: Obj, now: int)
      requires Valid()
      modifies this`dict, this`expires, server`slotsToKeys, server`fed
      ensures Valid() && key in dict
      ensures var l := Lookup(old(View()), Key(id, key), server.Passive(), now);
              View() == l.ks[Key(id, key) := Entry(val, None)] && server.fed == old(server.fed) + l.feds
    {
      hide Indexes, ViewOf, Lookup;
      ghost var k := Key(id, key);
      var found := LookupKey(key, now);
      ghost var v := View();
      ViewAt(id, dict, expires, key);
      if found.None? {
        DbAdd(key, val);
        PutThenExpire(v, k, Entry(val, None), None);
      } else {
        DbOverwrite(key, val);
        PutThenExpire(v, k, v[k].(val := val), None);
      }
      var removed := RemoveExpire(key);
    }

    // ---------- Commands ----------

    method SetGeneric(c: Command, argv: Argv, clock: Clock) returns (changed: bool)
      requires Valid() && c.SetTo?
      modifies this`dict, this`expires, server`slotsToKeys, server`fed, server`dirty
      ensures Valid() && changed == (server.dirty > old(server.dirty))
      ensures var e := ExecSet(old(View()), id, argv, c, server.Passive(), clock);
              View() == e.ks && server.fed + (if changed then [Fed(id, argv)] else []) == old(server.fed) + e.feds
    {
      hide Indexes, ViewOf, Lookup;
      ghost var k := Key(id, c.key);
      ghost var l := Lookup(View(), k, server.Passive(), clock.look);
      LookupAgain(View(), k, server.Passive(), clock.look);
      if c.nx || c.xx {
        var there := LookupKey(c.key, clock.look);
        ViewAt(id, dict, expires, c.key);
        if (c.nx && there.Some?) || (c.xx && there.None?) {
          return false;
        }
      }
      assert Lookup(View(), k, server.Passive(), clock.look).ks == l.ks;
      SetKey(c.key, Str(c.text), clock.look);
      server.dirty := server.dirty + 1;
      if c.ttl.Some? {
        SetExpire(c.key, clock.check + c.ttl.value);
        PutThenExpire(l.ks, k, Entry(Str(c.text), None), Some(clock.check + c.ttl.value));
      }
      changed := true;
    }

    method DelOne(key: Bytes, now: int) returns (deleted: bool)
      requires Valid()
      modifies this`dict, this`expires, server`slotsToKeys, server`fed, server`dirty
      ensures Valid() && server.dirty == old(server.dirty) + if deleted then 1 else 0
      ensures var l := Lookup(old(View()), Key(id, key), server.Passive(), now);
              View() == Without(l.ks, Key(id, key)) && server.fed == old(server.fed) + l.feds &&
              deleted == (Key(id, key) in l.ks)
    {
      hide Indexes, ViewOf, Lookup, Without;
      var expired := ExpireIfNeeded(key, now);
      ViewAt(id, dict, expires, key);
      deleted := DbDelete(key);
      if deleted {
        server.dirty := server.dirty + 1;
      }
    }

    method Del(keys: seq<Bytes>, now: int) returns (changed: bool)
      requires Valid()
      modifies this`dict, this`expires, server`slotsToKeys, server`fed, server`dirty
      ensures Valid() && changed == (server.dirty > old(server.dirty))
      ensures var d := DelKeys(old(View()), id, keys, server.Passive(), now);
              View() == d.ks && server.fed == old(server.fed) + d.feds && changed == d.any
    {
      hide Lookup, Without, RedisDb.Valid, RedisDb.View;
      changed := false;
      ghost var d := DelKeys(View(), id, keys, server.Passive(), now);
      var j := 0;
      while j < |keys|
        invariant j <= |keys| && Valid() && changed == (server.dirty > old(server.dirty)) && server.dirty >= old(server.dirty)
        invariant var rest := DelKeys(View(), id, keys[j..], server.Passive(), now);
                  rest.ks == d.ks && server.fed + rest.feds == old(server.fed) + d.feds && (changed || rest.any) == d.any
      {
        ghost var fed, l := server.fed, Lookup(View(), Key(id, keys[j]), server.Passive(), now);
        ghost var rest := DelKeys(Without(l.ks, Key(id, keys[j])), id, keys[j..][1..], server.Passive(), now);
        assert keys[j..][1..] == keys[j + 1..];
        var deleted := DelOne(keys[j], now);
        if deleted {
          changed := true;
        }
        assert (fed + l.feds) + rest.feds == fed + (l.feds + rest.feds);
        j := j + 1;
      }
    }

    /** EXPIRE and its variants. A time in the past deletes the key at once, and the command is rewritten into a DEL
        for the log; but not while loading or on a slave, where the time is just set. */
    method ExpireGeneric(c: Command, argv: Argv, clock: Clock) returns (changed: bool, argv': Argv)
      requires Valid() && c.Expire?
      modifies this`dict, this`expires, server`slotsToKeys, server`fed, server`dirty
      ensures Valid() && changed == (server.dirty > old(server.dirty))
      ensures var e := ExecExpire(old(View()), id, argv, c, server.Passive(), clock);
              View() == e.ks && server.fed + (if changed then [Fed(id, argv')] else []) == old(server.fed) + e.feds
    {
      hide Indexes, ViewOf, Lookup, Without;
      argv' := argv;
      var when := c.amount + (if c.relative then clock.base else 0);
      var there := LookupKey(c.key, clock.look);
      ViewAt(id, dict, expires, c.key);
      if there.None? {
        return false, argv';
      }
      if when <= clock.check && !server.loading && !server.slave {
        var deleted := DbDelete(c.key);
        assert deleted;
        server.dirty := server.dirty + 1;
        argv' := DelArgv(c.key);
        return true, argv';
      }
      SetExpire(c.key, when);
      server.dirty := server.dirty + 1;
      changed := true;
    }

    /** The renaming proper: the target takes the value and the expire time, the source goes. */
    method MoveEntry(key: Bytes, newkey: Bytes, o: Obj, expire: int, there: bool)
      requires Valid() && there == (newkey in dict) && key in dict && key != newkey
      modifies this`dict, this`expires, server`slotsToKeys
      ensures Valid()
      ensures View() == Without(old(View())[Key(id, newkey) := Entry(o, if expire != -1 then Some(expire) else None)],
                                Key(id, key))
    {
      hide Indexes, ViewOf, Without;
      ghost var dst, v := Key(id, newkey), View();
      if there {
        var gone := DbDelete(newkey);
      }
      PutOverDeleted(v, dst, Entry(o, None));
      DbAdd(newkey, o);
      if expire != -1 {
        SetExpire(newkey, expire);
        PutThenExpire(v, dst, Entry(o, None), Some(expire));
      }
      var deleted := DbDelete(key);
    }

    method RenameGeneric(c: Command, argv: Argv, clock: Clock) returns (changed: bool)
      requires Valid() && c.Rename?
      modifies this`dict, this`expires, server`slotsToKeys, server`fed, server`dirty
      ensures Valid() && changed == (server.dirty > old(server.dirty))
      ensures var e := ExecRename(old(View()), id, argv, c, server.Passive(), clock);
              View() == e.ks && server.fed + (if changed then [Fed(id, argv)] else []) == old(server.fed) + e.feds
    {
      hide Indexes, ViewOf, Lookup, Without;
      if c.key == c.newkey {
        return false;
      }
      ghost var src, dst := Key(id, c.key), Key(id, c.newkey);
      ghost var l := Lookup(View(), src, server.Passive(), clock.look);
      var o := LookupKey(c.key, clock.look);
      ViewAt(id, dict, expires, c.key);
      if o.None? {
        return false;
      }
      var expire := GetExpire(c.key);
      ghost var m := Lookup(l.ks, dst, server.Passive(), clock.look);
      LookupOther(l.ks, src, dst, server.Passive(), clock.look);
      var there := LookupKey(c.newkey, clock.look);
      ViewAt(id, dict, expires, c.newkey);
      ViewAt(id, dict, expires, c.key);
      if there.Some? && c.keepnew {
        return false;
      }
      MoveEntry(c.key, c.newkey, o.value, expire, there.Some?);
      server.dirty := server.dirty + 1;
      changed := true;
    }

    /** The value goes to another database, its expire time does not. */
    method Carry(dst: RedisDb, key: Bytes, o: Obj)
      requires Valid() && dst.Valid() && !server.clusterEnabled
      requires dst.server == server && dst != this && dst.id != id && key !in dst.dict
      modifies this`dict, this`expires, dst`dict, server`slotsToKeys
      ensures Valid() && dst.Valid()
      ensures View() + dst.View() ==
              Without((old(View()) + old(dst.View()))[Key(dst.id, key) := Entry(o, None)], Key(id, key))
    {
      hide Indexes, ViewOf, Without;
      ViewsApart(this, dst);
      MoveAcross(View(), dst.View(), Key(id, key), Key(dst.id, key), Entry(o, None));
      dst.DbAdd(key, o);
      var deleted := DbDelete(key);
    }

    /** A lookup in this database, seen from the pair of databases. */
    method LookupBeside(dst: RedisDb, key: Bytes, now: int) returns (val: Option<Obj>)
      requires Valid() && dst.Valid() && !server.clusterEnabled
      requires dst.server == server && dst != this && dst.id != id
      modifies this`dict, this`expires, server`slotsToKeys, server`fed
      ensures Valid() && dst.Valid()
      ensures var l := Lookup(old(View()) + dst.View(), Key(id, key), server.Passive(), now);
              View() + dst.View() == dst.View() + View() == l.ks && server.fed == old(server.fed) + l.feds
      ensures val == if key in dict then Some(dict[key]) else None
    {
      hide Indexes, ViewOf, Lookup;
      ViewsApart(this, dst);
      LookupLeft(View(), dst.View(), Key(id, key), server.Passive(), now);
      val := LookupKey(key, now);
      ViewsApart(this, dst);
      assert View() + dst.View() == dst.View() + View();
    }

    /** The two lookups of MOVE: the value to move, if there is one and nothing is in its way. */
    method FindMovable(dst: RedisDb, key: Bytes, now: int) returns (o: Option<Obj>)
      requires Valid() && dst.Valid() && !server.clusterEnabled
      requires dst.server == server && dst != this && dst.id != id
      modifies this`dict, this`expires, dst`dict, dst`expires, server`slotsToKeys, server`fed
      ensures Valid() && dst.Valid()
      ensures o.Some? ==> key in dict && o.value == dict[key] && key !in dst.dict
      ensures var from, to, ks := Key(id, key), Key(dst.id, key), old(View()) + old(dst.View());
              var l := Lookup(ks, from, server.Passive(), now);
              var m := Lookup(l.ks, to, server.Passive(), now);
              if from !in l.ks then
                o.None? && View() + dst.View() == l.ks && server.fed == old(server.fed) + l.feds
              else
                o == (if to in m.ks then None else Some(l.ks[from].val)) &&
                View() + dst.View() == m.ks && server.fed == old(server.fed) + l.feds + m.feds
    {
      hide Indexes, ViewOf, Lookup, RedisDb.View, RedisDb.Valid;
      o := LookupBeside(dst, key, now);
      InPair(this, dst, key);
      if o.None? {
        return;
      }
      var there := dst.LookupBeside(this, key, now);
      InPair(dst, this, key);
      if there.Some? {
        o := None;
      }
    }

    /** MOVE, between two databases: outside cluster mode only. */
    method MoveTo(dst: RedisDb, c: Command, argv: Argv, clock: Clock) returns (changed: bool)
      requires Valid() && dst.Valid() && !server.clusterEnabled
      requires c.Move? && c.dst == dst.id && dst.server == server && (dst == this <==> dst.id == id)
      modifies this`dict, this`expires, dst`dict, dst`expires, server`slotsToKeys, server`fed, server`dirty
      ensures Valid() && dst.Valid() && changed == (server.dirty > old(server.dirty))
      ensures var e := ExecMove(old(View()) + old(dst.View()), id, argv, c, server.Passive(), clock);
              View() + dst.View() == e.ks &&
              server.fed + (if changed then [Fed(id, argv)] else []) == old(server.fed) + e.feds
    {
      hide Indexes, ViewOf, Lookup, Without;
      if dst == this {
        assert View() + View() == View();
        return false;
      }
      var o := FindMovable(dst, c.key, clock.look);
      if o.None? {
        return false;
      }
      Carry(dst, c.key, o.value);
      server.dirty := server.dirty + 1;
      changed := true;
    }

    method PersistKey(key: Bytes) returns (changed: bool)
      requires Valid()
      modifies this`expires, server`dirty
      ensures Valid() && changed == (server.dirty > old(server.dirty))
      ensures var k := Key(id, key);
              changed == (k in old(View()) && old(View())[k].exp.Some?) &&
              View() == if changed then old(View())[k := old(View())[k].(exp := None)] else old(View())
    {
      hide Indexes, ViewOf;
      ViewAt(id, dict, expires, key);
      if key !in dict {
        return false;
      }
      ghost var v := View();
      changed := RemoveExpire(key);
      if changed {
        server.dirty := server.dirty + 1;
      } else {
        assert v[Key(id, key) := v[Key(id, key)]] == v;
      }
    }

    /** This database's share of emptyDb, with slotToKeyFlush. */
    method EmptyDb() returns (removed: nat)
      requires Valid()
      modifies this`dict, this`expires, server`slotsToKeys
      ensures Valid() && dict == map[] && expires == map[] && View() == map[] && removed == |old(dict)|
    {
      hide ViewOf;
      removed := |dict|;
      dict := map[];
      expires := map[];
      if server.clusterEnabled {
        server.slotsToKeys := [];
      }
      ViewEmpty(id);
    }

    method FlushDb() returns (changed: bool)
      requires Valid()
      modifies this`dict, this`expires, server`slotsToKeys, server`dirty
      ensures Valid() && View() == map[] && server.dirty == old(server.dirty) + |old(dict)|
      ensures changed == (server.dirty > old(server.dirty))
      ensures changed == (InDb(old(View()), id) != {}) && View() == old(View()) - InDb(old(View()), id)
    {
      hide ViewOf;
      forall n
        ensures n in dict <==> Key(id, n) in View()
      {
        ViewAt(id, dict, expires, n);
      }
      forall k | k in View()
        ensures k.db == id && Key(id, k.name) == k
      {
        ViewKeys(id, dict, expires, k);
      }
      changed := |dict| > 0;
      if n :| n in dict {
        assert Key(id, n) in InDb(View(), id);
      } else {
        assert dict == map[];
      }
      var removed := EmptyDb();
      server.dirty := server.dirty + removed;
    }

    /** FLUSHALL where this is the only database, as in cluster mode. It counts as a change even if nothing was
        there. */
    method FlushAll() returns (changed: bool)
      requires Valid()
      modifies this`dict, this`expires, server`slotsToKeys, server`dirty
      ensures Valid() && View() == map[] && server.dirty == old(server.dirty) + |old(dict)| + 1
      ensures changed
    {
      var removed := EmptyDb();
      server.dirty := server.dirty + removed;
      server.dirty := server.dirty + 1;
      changed := true;
    }

    /** The loop of RPUSH, SADD, ZADD and HMSET on the value at key, which changes in place. */
    method AddRowsTo(key: Bytes, kind: Kind, rows: seq<Row>) returns (changed: bool)
      requires Valid() && key in dict && IsKind(dict[key], kind) && RowsOk(kind, rows)
      modifies this`dict, server`dirty
      ensures Valid() && changed == (server.dirty > old(server.dirty))
      ensures dict == old(dict)[key := AddRows(kind, old(dict)[key], rows)]
      ensures changed == RowsChange(kind, old(dict)[key], rows)
    {
      hide Indexes, AddRow, RowChanges;
      changed := false;
      var i := 0;
      while i < |rows|
        invariant i <= |rows| && Valid() && key in dict && IsKind(dict[key], kind)
        invariant dict == old(dict)[key := dict[key]] && dict.Keys == old(dict).Keys
        invariant changed == (server.dirty > old(server.dirty)) && server.dirty >= old(server.dirty)
        invariant AddRows(kind, dict[key], rows[i..]) == AddRows(kind, old(dict)[key], rows)
        invariant (changed || RowsChange(kind, dict[key], rows[i..])) == RowsChange(kind, old(dict)[key], rows)
      {
        assert rows[i..][0] == rows[i] && rows[i..][1..] == rows[i + 1..];
        if RowChanges(kind, dict[key], rows[i]) {
          server.dirty := server.dirty + 1;
          changed := true;
        }
        ghost var names := dict.Keys;
        dict := dict[key := AddRow(kind, dict[key], rows[i])];
        assert dict.Keys == names;
        i := i + 1;
      }
    }

    method AddGeneric(c: Command, argv: Argv, clock: Clock) returns (changed: bool)
      requires Valid() && c.Add? && RowsOk(c.kind, c.rows)
      modifies this`dict, this`expires, server`slotsToKeys, server`fed, server`dirty
      ensures Valid() && changed == (server.dirty > old(server.dirty))
      ensures var e := ExecAdd(old(View()), id, argv, c, server.Passive(), clock);
              View() == e.ks && server.fed + (if changed then [Fed(id, argv)] else []) == old(server.fed) + e.feds
    {
      hide Indexes, ViewOf, Lookup, AddRows, RowsChange;
      ghost var k := Key(id, c.key);
      var there := LookupKey(c.key, clock.look);
      ghost var v := View();
      ViewAt(id, dict, expires, c.key);
      if there.Some? && !IsKind(there.value, c.kind) {
        return false;
      }
      if there.None? {
        DbAdd(c.key, EmptyObj(c.kind));
      }
      ghost var cur := dict[c.key];
      ViewPut(id, dict, expires, c.key, AddRows(c.kind, cur, c.rows));
      changed := AddRowsTo(c.key, c.kind, c.rows);
      assert there.None? ==> c.key !in expires;
    }

    // ---------- A whole command ----------

    method Dispatch(c: Command, argv: Argv, clock: Clock) returns (changed: bool, argv': Argv)
      requires Valid() && Local(c, server.clusterEnabled)
      modifies this`dict, this`expires, server`slotsToKeys, server`fed, server`dirty
      ensures Valid() && changed == (server.dirty > old(server.dirty))
      ensures var e := ExecLocal(old(View()), id, argv, c, server.Passive(), clock);
              View() == e.ks && server.fed + (if changed then [Fed(id, argv')] else []) == old(server.fed) + e.feds
    {
      hide RedisDb.Valid, RedisDb.View, ExecSet, ExecExpire, ExecAdd, ExecRename, ExecMove, DelKeys, Lookup, InDb;
      changed, argv' := false, argv;
      match c {
        case Error =>
        case Get(key) =>
          var found := LookupKey(key, clock.look);
        case SetTo(_, _, _, _, _) =>
          changed := SetGeneric(c, argv, clock);
        case Del(keys) =>
          changed := Del(keys, clock.look);
        case Expire(_, _, _) =>
          changed, argv' := ExpireGeneric(c, argv, clock);
        case Add(_, _, _) =>
          changed := AddGeneric(c, argv, clock);
        case Rename(_, _, _) =>
          changed := RenameGeneric(c, argv, clock);
        case Move(_, _) =>
        case FlushDb =>
          changed := FlushDb();
        case FlushAll =>
          changed := FlushAll();
        case Persist(key) =>
          changed := PersistKey(key);
        case Select(_) =>
      }
    }

    /** call: runs a command, and hands it to the log if it counted a change. Whatever the role of the server, the
        dataset and the log move exactly as the commands' own meaning says, and the dictionaries and the slot index
        stay in agreement. */
    method Call(c: Command, argv: Argv, clock: Clock)
      requires Valid() && Local(c, server.clusterEnabled)
      modifies this`dict, this`expires, server`slotsToKeys, server`fed, server`dirty
      ensures Valid()
      ensures var e := if c.Move? then Effect(old(View()), []) else Exec(old(View()), id, argv, c, server.Passive(), clock);
              View() == e.ks && server.fed == old(server.fed) + e.feds
    {
      hide Indexes, RedisDb.View, Exec;
      var dirty := server.dirty;
      var changed, argv' := Dispatch(c, argv, clock);
      if server.dirty > dirty {
        server.fed := server.fed + [Fed(id, argv')];
      }
    }

    // ---------- Slots ----------

    /** delKeysInSlot: removes exactly the keys of the slot from both dictionaries and the index, and returns their
        number. Nothing is handed to the log. */
    method DelKeysInSlot(slot: nat) returns (j: nat)
      requires Valid() && server.clusterEnabled
      modifies this`dict, this`expires, server`slotsToKeys
      ensures Valid() && j == |KeysOf(old(dict).Keys, slot)|
      ensures dict == old(dict) - KeysOf(old(dict).Keys, slot)
      ensures expires == old(expires) - KeysOf(old(dict).Keys, slot)
      ensures View() == old(View()) - InSlot(old(View()), slot)
    {
      hide Indexes, HashSlot, FirstIn, ViewOf, InSlot, Without;
      j := 0;
      ghost var gone: set<Bytes> := {};
      var at := FirstIn(server.slotsToKeys, slot);
      StretchStart(server.slotsToKeys, dict.Keys, slot);
      var n := NodeAt(server.slotsToKeys, at);
      while n.Some? && n.value.slot == slot
        invariant Valid() && n == NodeAt(server.slotsToKeys, at) && UpToStretch(server.slotsToKeys, slot, at)
        invariant gone <= KeysOf(old(dict).Keys, slot) && |gone| == j
        invariant dict == old(dict) - gone && expires == old(expires) - gone
        decreases |dict|
      {
        ghost var before, names := server.slotsToKeys, dict.Keys;
        IndexedAt(before, names, at);
        var key := n.value.name;
        n := NodeAt(server.slotsToKeys, at + 1);
        ShrinksBy(dict, key);
        var deleted := DbDelete(key);
        NodeRemoved(before, names, at, server.slotsToKeys, slot);
        gone := gone + {key};
        j := j + 1;
      }
      StretchOver(server.slotsToKeys, dict.Keys, slot, at);
      assert gone == KeysOf(old(dict).Keys, slot);
      ViewDropSlot(id, old(dict), old(expires), slot);
    }

    // ---------- Any number of requests ----------

    method Handle(r: Request)
      requires Valid() && IsLocal(r, server.clusterEnabled)
      modifies this`dict, this`expires
      modifies server`slotsToKeys, server`fed, server`dirty, server`slave, server`loading
      ensures Valid() && State() == ServeOne(old(State()), id, r)
      ensures r.Run? && !r.c.Move? ==>
                var e := Exec(old(View()), id, r.argv, r.c, old(server.Passive()), r.clock);
                View() == e.ks && server.fed == old(server.fed) + e.feds
      ensures r.EmptyData? ==> dict == map[] && expires == map[]
      ensures r.DropSlot? ==> dict == old(dict) - KeysOf(old(dict).Keys, r.slot)
      ensures server.slave == if r.SetRole? then r.slave else old(server.slave)
      ensures server.loading == if r.SetLoading? then r.loading else old(server.loading)
    {
      hide Indexes, RedisDb.View, Exec, InSlot;
      match r {
        case Run(c, argv, clock) =>
          Call(c, argv, clock);
        case EmptyData =>
          var removed := EmptyDb();
        case DropSlot(slot) =>
          var removed := DelKeysInSlot(slot);
        case SetRole(slave) =>
          server.slave := slave;
        case SetLoading(loading) =>
          server.loading := loading;
      }
    }

    /** Any run of the database: throughout, the dictionaries and the slot index agree, also when the server changes
        its role, loads, is emptied or loses slots, and in the end dataset and log are those of the requests' own
        meaning. */
    method Serve(requests: seq<Request>)
      requires Valid() && AllLocal(requests, server.clusterEnabled)
      modifies this`dict, this`expires
      modifies server`slotsToKeys, server`fed, server`dirty, server`slave, server`loading
      ensures Valid() && State() == ServeAll(old(State()), id, requests, server.clusterEnabled)
    {
      hide RedisDb.Valid, RedisDb.State, ServeOne;
      ghost var end := ServeAll(State(), id, requests, server.clusterEnabled);
      for i := 0 to |requests|
        invariant Valid() && ServeAll(State(), id, requests[i..], server.clusterEnabled) == end
      {
        assert requests[i..][0] == requests[i] && requests[i..][1..] == requests[i + 1..];
        Handle(requests[i]);
      }
    }
  }

  lemma InPair(a: RedisDb, b: RedisDb, n: Bytes)
    requires a.id != b.id
    ensures n in a.dict <==> Key(a.id, n) in a.View() + b.View()
    ensures n in a.dict ==> (a.View() + b.View())[Key(a.id, n)].val == a.dict[n]
  {
  }

  lemma ViewsApart(a: RedisDb, b: RedisDb)
    requires a.id != b.id
    ensures a.View().Keys !! b.View().Keys
    ensures forall n :: Key(a.id, n) !in b.View() && Key(b.id, n) !in a.View()
  {
  }
}
