/** The 25-slot renderer cache, against a finite map from address to entry. */
module ClientCache {
  import opened Text

  const SLOTS: nat := 25
  const TTL_SECS: nat := 3600

  type Addr = nat
  type Mac = nat

  /** Kinds are numbered as declared: generic rows and the Samsung rows have a role below. */
  const KIND_UNKNOWN: nat := 0
  const KIND_SAMSUNG_A: nat := 9
  const KIND_SAMSUNG_B: nat := 10
  const KIND_DLNA150: nat := 35
  const KIND_UPNP: nat := 36

  datatype Profile = Profile(kind: nat, name: string)

  datatype Entry = Entry(mac: Option<Mac>, profile: Profile, age: nat)

  datatype Slot = Slot(addr: Addr, entry: Entry)

  type Entries = map<Addr, Entry>

  predicate Generic(p: Profile) {
    p.kind == KIND_DLNA150 || p.kind == KIND_UPNP || p.kind == KIND_UNKNOWN
  }

  predicate ShouldOverwrite(before: Profile, after: Profile) {
    && !(before.kind == KIND_SAMSUNG_B && after.kind == KIND_SAMSUNG_A)
    && !(Generic(after) && !Generic(before))
    && !(before.kind < KIND_DLNA150 && Generic(after))
  }

  /** `now.saturating_sub(age) > TTL`. */
  predicate Expired(e: Entry, now: nat) {
    now >= e.age && now - e.age > TTL_SECS
  }

  predicate SameMac(a: Option<Mac>, b: Option<Mac>) {
    a.Some? && b.Some? && a == b
  }

  function OrMac(a: Option<Mac>, b: Option<Mac>): Option<Mac> {
    if a.Some? then a else b
  }

  // ---------- the map ----------

  function Search(m: Entries, addr: Addr, now: nat, mac: Option<Mac>): (Entries, Option<Profile>) {
    if addr !in m then (m, None)
    else
      var e := m[addr];
      if !Expired(e, now) then (m, Some(e.profile))
      else if SameMac(mac, e.mac) then (m[addr := e.(age := now)], Some(e.profile))
      else (m - {addr}, None)
  }

  function Live(m: Entries, now: nat): Entries {
    map a | a in m && !Expired(m[a], now) :: m[a]
  }

  function Add(m: Entries, addr: Addr, profile: Profile, mac: Option<Mac>, now: nat): (Entries, bool) {
    if addr in m then
      if ShouldOverwrite(m[addr].profile, profile)
      then (m[addr := Entry(OrMac(mac, m[addr].mac), profile, now)], true)
      else (m, true)
    else
      var live := Live(m, now);
      if |live| < SLOTS then (live[addr := Entry(mac, profile, now)], true) else (live, false)
  }

  function SetAge(m: Entries, addr: Addr, age: nat): Entries {
    if addr in m then m[addr := m[addr].(age := age)] else m
  }

  function Remember(m: Entries, addr: Addr, request: Profile, mac: Option<Mac>, now: nat): (Entries, Profile) {
    var (searched, cached) := Search(m, addr, now, mac);
    if Generic(request) && cached.Some? && !Generic(cached.value) then (searched, cached.value)
    else
      var added := Add(if Generic(request) then searched else m, addr, request, mac, now).0;
      var (after, stored) := Search(added, addr, now, mac);
      (after, if stored.Some? then stored.value else request)
  }

  // ---------- the slots ----------

  predicate Holds(slots: seq<Option<Slot>>, i: nat, addr: Addr) {
    i < |slots| && slots[i].Some? && slots[i].value.addr == addr
  }

  /** The slots hold exactly the map, one slot an address. */
  ghost predicate Represents(slots: seq<Option<Slot>>, m: Entries) {
    && (forall i :: 0 <= i < |slots| && slots[i].Some? ==>
          slots[i].value.addr in m && m[slots[i].value.addr] == slots[i].value.entry)
    && (forall a :: a in m ==> exists i: nat :: Holds(slots, i, a))
    && (forall i, j :: 0 <= i < j < |slots| && slots[i].Some? && slots[j].Some? ==>
          slots[i].value.addr != slots[j].value.addr)
  }

  function Used(slots: seq<Option<Slot>>): nat {
    if slots == [] then 0 else Used(slots[..|slots| - 1]) + if slots[|slots| - 1].Some? then 1 else 0
  }

  /** The map without the entry of the last slot. */
  function Earlier(slots: seq<Option<Slot>>, m: Entries): Entries
    requires slots != []
  {
    var last := slots[|slots| - 1];
    if last.Some? then m - {last.value.addr} else m
  }

  lemma EarlierSlots(slots: seq<Option<Slot>>, m: Entries)
    requires Represents(slots, m) && slots != []
    ensures Represents(slots[..|slots| - 1], Earlier(slots, m))
    ensures slots[|slots| - 1].Some? ==> slots[|slots| - 1].value.addr in m
  {
    var rest := slots[..|slots| - 1];
    forall a | a in Earlier(slots, m) ensures exists i: nat :: Holds(rest, i, a) {
      var i: nat :| Holds(slots, i, a);
      assert Holds(rest, i, a);
    }
  }

  lemma {:induction false} UsedIsSize(slots: seq<Option<Slot>>, m: Entries)
    requires Represents(slots, m)
    ensures Used(slots) == |m|
    decreases |slots|
  {
    if slots == [] {
      assert m == map[];
    } else {
      hide Represents;
      EarlierSlots(slots, m);
      UsedIsSize(slots[..|slots| - 1], Earlier(slots, m));
      var last := slots[|slots| - 1];
      if last.Some? {
        assert m.Keys == Earlier(slots, m).Keys + {last.value.addr};
      }
    }
  }

  lemma {:induction false} AllUsed(slots: seq<Option<Slot>>)
    ensures Used(slots) <= |slots|
    ensures Used(slots) == |slots| <==> forall i :: 0 <= i < |slots| ==> slots[i].Some?
    decreases |slots|
  {
    if slots != [] {
      AllUsed(slots[..|slots| - 1]);
    }
  }

  lemma ClearSlot(slots: seq<Option<Slot>>, m: Entries, i: nat)
    requires Represents(slots, m) && i < |slots| && slots[i].Some?
    ensures Represents(slots[i := None], m - {slots[i].value.addr})
  {
    var after, now := m - {slots[i].value.addr}, slots[i := None];
    forall a | a in after ensures exists k: nat :: Holds(now, k, a) {
      var k: nat :| Holds(slots, k, a);
      assert Holds(now, k, a);
    }
  }

  lemma UpdateSlot(slots: seq<Option<Slot>>, m: Entries, i: nat, e: Entry)
    requires Represents(slots, m) && i < |slots| && slots[i].Some?
    ensures Represents(slots[i := Some(slots[i].value.(entry := e))], m[slots[i].value.addr := e])
  {
    var now := slots[i := Some(slots[i].value.(entry := e))];
    var after := m[slots[i].value.addr := e];
    forall a | a in after ensures exists k: nat :: Holds(now, k, a) {
      var k: nat :| Holds(slots, k, a);
      assert Holds(now, k, a);
    }
  }

  lemma FillSlot(slots: seq<Option<Slot>>, m: Entries, i: nat, addr: Addr, e: Entry)
    requires Represents(slots, m) && i < |slots| && slots[i].None? && addr !in m
    ensures Represents(slots[i := Some(Slot(addr, e))], m[addr := e])
  {
    var after, now := m[addr := e], slots[i := Some(Slot(addr, e))];
    forall a | a in after ensures exists k: nat :: Holds(now, k, a) {
      if a == addr {
        assert Holds(now, i, a);
      } else {
        var k: nat :| Holds(slots, k, a);
        assert Holds(now, k, a);
      }
    }
  }

  lemma NoneExpired(slots: seq<Option<Slot>>, m: Entries, now: nat)
    requires Represents(slots, m)
    requires forall k :: 0 <= k < |slots| && slots[k].Some? ==> !Expired(slots[k].value.entry, now)
    ensures forall a :: a in m ==> !Expired(m[a], now)
  {
    forall a | a in m ensures !Expired(m[a], now) {
      var k: nat :| Holds(slots, k, a);
      assert slots[k].value.entry == m[a];
    }
  }

  // ---------- the cache ----------

  class ClientCache {
    const slots: array<Option<Slot>>
    ghost var contents: Entries

    ghost predicate Valid()
      reads this, slots
    {
      slots.Length == SLOTS && Represents(slots[..], contents)
    }

    constructor ()
      ensures Valid() && fresh(slots) && contents == map[]
    {
      slots := new Option<Slot>[SLOTS](i => None);
      contents := map[];
    }

    method Len() returns (n: nat)
      requires Valid()
      ensures n == |contents|
    {
      n := 0;
      for i := 0 to slots.Length
        invariant n == Used(slots[..i])
      {
        assert slots[..i + 1][..i] == slots[..i];
        if slots[i].Some? {
          n := n + 1;
        }
      }
      assert slots[..slots.Length] == slots[..];
      UsedIsSize(slots[..], contents);
    }

    /** The slot of an address. */
    method Find(addr: Addr) returns (index: Option<nat>)
      requires Valid()
      ensures index.None? <==> addr !in contents
      ensures index.Some? ==> Holds(slots[..], index.value, addr)
    {
      for i := 0 to slots.Length
        invariant forall k :: 0 <= k < i ==> !Holds(slots[..], k, addr)
      {
        if slots[i].Some? && slots[i].value.addr == addr {
          return Some(i);
        }
      }
      return None;
    }

    method SetAgeOf(addr: Addr, age: nat)
      requires Valid()
      modifies this, slots
      ensures Valid() && contents == SetAge(old(contents), addr, age)
    {
      ghost var start := contents;
      for i := 0 to slots.Length
        invariant Valid()
        invariant contents == start || contents == SetAge(start, addr, age)
        invariant addr in start && contents == start && start != SetAge(start, addr, age) ==>
          forall k :: 0 <= k < i ==> !Holds(slots[..], k, addr)
      {
        if slots[i].Some? && slots[i].value.addr == addr {
          UpdateSlot(slots[..], contents, i, slots[i].value.entry.(age := age));
          contents := contents[addr := slots[i].value.entry.(age := age)];
          slots[i] := Some(slots[i].value.(entry := slots[i].value.entry.(age := age)));
        }
      }
    }

    method SearchFor(addr: Addr, now: nat, mac: Option<Mac>) returns (found: Option<Profile>)
      requires Valid()
      modifies this, slots
      ensures Valid() && (contents, found) == Search(old(contents), addr, now, mac)
    {
      for i := 0 to slots.Length
        invariant Valid() && contents == old(contents)
        invariant forall k :: 0 <= k < i ==> !Holds(slots[..], k, addr)
      {
        if slots[i].None? || slots[i].value.addr != addr {
          continue;
        }
        var e := slots[i].value.entry;
        if Expired(e, now) {
          if SameMac(mac, e.mac) {
            UpdateSlot(slots[..], contents, i, e.(age := now));
            contents := contents[addr := e.(age := now)];
            slots[i] := Some(slots[i].value.(entry := e.(age := now)));
          } else {
            ClearSlot(slots[..], contents, i);
            contents := contents - {addr};
            slots[i] := None;
            return None;
          }
        }
        return Some(e.profile);
      }
      return None;
    }

    /** Empty every slot whose entry has expired. */
    method Expire(now: nat)
      requires Valid()
      modifies this, slots
      ensures Valid() && contents == Live(old(contents), now)
    {
      ghost var start := contents;
      for i := 0 to slots.Length
        invariant Valid()
        invariant forall a :: a in contents ==> a in start && contents[a] == start[a]
        invariant forall a :: a in start && a !in contents ==> Expired(start[a], now)
        invariant forall k :: 0 <= k < i && slots[k].Some? ==> !Expired(slots[k].value.entry, now)
      {
        if slots[i].Some? && Expired(slots[i].value.entry, now) {
          ClearSlot(slots[..], contents, i);
          contents := contents - {slots[i].value.addr};
          slots[i] := None;
        }
      }
      NoneExpired(slots[..], contents, now);
    }

    /** Take the first free slot. */
    method FillFree(addr: Addr, e: Entry) returns (filled: bool)
      requires Valid() && addr !in contents
      modifies this, slots
      ensures Valid() && (filled <==> |old(contents)| < SLOTS)
      ensures contents == if filled then old(contents)[addr := e] else old(contents)
    {
      UsedIsSize(slots[..], contents);
      AllUsed(slots[..]);
      for i := 0 to slots.Length
        invariant Valid() && contents == old(contents)
        invariant forall k :: 0 <= k < i ==> slots[k].Some?
      {
        if slots[i].None? {
          assert slots[..][i].None?;
          FillSlot(slots[..], contents, i, addr, e);
          contents := contents[addr := e];
          slots[i] := Some(Slot(addr, e));
          return true;
        }
      }
      return false;
    }

    lemma SizeFits()
      requires Valid()
      ensures |contents| <= 25
    {
      UsedIsSize(slots[..], contents);
      AllUsed(slots[..]);
    }

    method AddClient(addr: Addr, profile: Profile, mac: Option<Mac>, now: nat) returns (stored: bool)
      requires Valid()
      modifies this, slots
      ensures Valid() && (contents, stored) == Add(old(contents), addr, profile, mac, now)
      ensures addr in old(contents) && MayDisplace(old(contents)[addr].profile, profile) ==>
        stored && contents == old(contents)[addr := Displaced(old(contents)[addr], profile, mac, now)]
      ensures addr in old(contents) && !MayDisplace(old(contents)[addr].profile, profile) ==>
        stored && contents == old(contents)
      ensures addr !in old(contents) && Fits(old(contents), now) ==>
        stored && AddedTo(contents, old(contents), addr, Entry(mac, profile, now), now)
      ensures addr !in old(contents) && !Fits(old(contents), now) ==> !stored && contents == old(contents)
    {
      SizeFits();
      AddMeaning(contents, addr, profile, mac, now);
      var index := Find(addr);
      if index.Some? {
        var e := slots[index.value].value.entry;
        assert slots[..][index.value] == slots[index.value];
        if ShouldOverwrite(e.profile, profile) {
          var next := Entry(OrMac(mac, e.mac), profile, now);
          UpdateSlot(slots[..], contents, index.value, next);
          contents := contents[addr := next];
          slots[index.value] := Some(slots[index.value].value.(entry := next));
        }
        return true;
      }
      Expire(now);
      stored := FillFree(addr, Entry(mac, profile, now));
    }

    method RememberClient(addr: Addr, request: Profile, mac: Option<Mac>, now: nat) returns (profile: Profile)
      requires Valid()
      modifies this, slots
      ensures Valid() && (contents, profile) == Remember(old(contents), addr, request, mac, now)
      ensures addr in old(contents) && MayDisplace(old(contents)[addr].profile, request) &&
              (AnyRenderer(request) ==> Kept(old(contents)[addr], mac, now)) ==>
        profile == request && contents == old(contents)[addr := Displaced(old(contents)[addr], request, mac, now)]
      ensures addr in old(contents) && !MayDisplace(old(contents)[addr].profile, request) &&
              Kept(old(contents)[addr], mac, now) ==>
        profile == old(contents)[addr].profile && contents == Seen(old(contents), addr, now)
      ensures addr !in old(contents) ==> profile == request
    {
      SizeFits();
      if addr !in contents {
        RememberAtNewAddress(contents, addr, request, mac, now);
      } else if AnyRenderer(request) ==> Kept(contents[addr], mac, now) {
        RememberAtHeldAddress(contents, addr, request, mac, now);
      }
      if Generic(request) {
        var cached := SearchFor(addr, now, mac);
        if cached.Some? && !Generic(cached.value) {
          return cached.value;
        }
      }
      var _ := AddClient(addr, request, mac, now);
      var stored := SearchFor(addr, now, mac);
      return if stored.Some? then stored.value else request;
    }
  }

  // ---------- what callers can rely on ----------

  datatype Call =
    | CallSearch(addr: Addr, now: nat, mac: Option<Mac>)
    | CallAdd(addr: Addr, profile: Profile, mac: Option<Mac>, now: nat)
    | CallRemember(addr: Addr, profile: Profile, mac: Option<Mac>, now: nat)
    | CallSetAge(addr: Addr, age: nat)

  function After(m: Entries, call: Call): Entries {
    match call
    case CallSearch(addr, now, mac) => Search(m, addr, now, mac).0
    case CallAdd(addr, profile, mac, now) => Add(m, addr, profile, mac, now).0
    case CallRemember(addr, profile, mac, now) => Remember(m, addr, profile, mac, now).0
    case CallSetAge(addr, age) => SetAge(m, addr, age)
  }

  function AfterAll(m: Entries, calls: seq<Call>): Entries
    decreases |calls|
  {
    if calls == [] then m else AfterAll(After(m, calls[0]), calls[1..])
  }

  lemma SmallerMap(small: Entries, large: Entries)
    requires small.Keys <= large.Keys
    ensures |small| <= |large| && (|small| == |large| ==> small.Keys == large.Keys)
  {
    assert |large.Keys| == |small.Keys| + |large.Keys - small.Keys|;
    assert small.Keys + (large.Keys - small.Keys) == large.Keys;
  }

  lemma OneMoreKey(m: Entries, addr: Addr, e: Entry)
    ensures |m[addr := e]| == if addr in m then |m| else |m| + 1
  {
    assert m[addr := e].Keys == m.Keys + {addr};
  }

  /** Adding never touches a live entry of another address, refuses only when every slot holds
      one, and otherwise leaves the address with a profile. */
  lemma AddKeepsLiveEntries(m: Entries, addr: Addr, profile: Profile, mac: Option<Mac>, now: nat)
    requires |m| <= SLOTS
    ensures var (after, stored) := Add(m, addr, profile, mac, now);
      && |after| <= SLOTS
      && (forall a :: a in m && a != addr && !Expired(m[a], now) ==> a in after && after[a] == m[a])
      && (stored <==> addr in after)
      && (!stored <==> addr !in m && |m| == SLOTS && forall a :: a in m ==> !Expired(m[a], now))
      && (!stored ==> after == m)
  {
    var live := Live(m, now);
    SmallerMap(live, m);
    OneMoreKey(live, addr, Entry(mac, profile, now));
    if addr in m {
      OneMoreKey(m, addr, Entry(OrMac(mac, m[addr].mac), profile, now));
    }
    if |live| == SLOTS {
      assert live.Keys == m.Keys;
    }
    if forall a :: a in m ==> !Expired(m[a], now) {
      assert live == m;
    }
  }

  lemma SearchShrinks(m: Entries, addr: Addr, now: nat, mac: Option<Mac>)
    requires |m| <= SLOTS
    ensures |Search(m, addr, now, mac).0| <= SLOTS
  {
    SmallerMap(Search(m, addr, now, mac).0, m);
  }

  lemma StepFits(m: Entries, call: Call)
    requires |m| <= SLOTS
    ensures |After(m, call)| <= SLOTS
  {
    match call
    case CallSearch(addr, now, mac) => SearchShrinks(m, addr, now, mac);
    case CallAdd(addr, profile, mac, now) => AddKeepsLiveEntries(m, addr, profile, mac, now);
    case CallRemember(addr, profile, mac, now) =>
      SearchShrinks(m, addr, now, mac);
      var start := if Generic(profile) then Search(m, addr, now, mac).0 else m;
      AddKeepsLiveEntries(start, addr, profile, mac, now);
      SearchShrinks(Add(start, addr, profile, mac, now).0, addr, now, mac);
    case CallSetAge(addr, age) => SmallerMap(SetAge(m, addr, age), m);
  }

  lemma {:induction false} EveryRunFits(m: Entries, calls: seq<Call>)
    requires |m| <= SLOTS
    ensures |AfterAll(m, calls)| <= SLOTS
    decreases |calls|
  {
    if calls != [] {
      StepFits(m, calls[0]);
      EveryRunFits(After(m, calls[0]), calls[1..]);
    }
  }

  /** A call that may not displace a profile: one for another address, a search, a generic
      request, a change of age, or Samsung's series A where series B is cached. */
  predicate Weaker(call: Call, addr: Addr, held: Profile) {
    match call
    case CallAdd(a, p, _, _) => a != addr || Inferior(p, held)
    case CallRemember(a, p, _, _) => a != addr || Inferior(p, held)
    case _ => true
  }

  predicate Inferior(p: Profile, held: Profile) {
    Generic(p) || (held.kind == KIND_SAMSUNG_B && p.kind == KIND_SAMSUNG_A)
  }

  predicate Holding(m: Entries, addr: Addr, held: Profile) {
    addr in m && m[addr].profile == held
  }

  /** Whether a call leaves the entry of `addr` in the cache: a search or a request drops its own
      expired entry unless the same hardware address asks, and adding a new address sweeps every
      expired one. */
  predicate Spares(m: Entries, call: Call, addr: Addr)
    requires addr in m
  {
    match call
    case CallSearch(a, now, mac) => a != addr || !Expired(m[addr], now) || SameMac(mac, m[addr].mac)
    case CallAdd(a, _, _, now) => a == addr || a in m || !Expired(m[addr], now)
    case CallRemember(a, p, mac, now) =>
      if a == addr then !Expired(m[addr], now) || SameMac(mac, m[addr].mac)
      else a in (if Generic(p) then Search(m, a, now, mac).0 else m) || !Expired(m[addr], now)
    case CallSetAge(_, _) => true
  }

  /** A specific profile outlives one call that may not displace it exactly when the call spares
      its entry. */
  lemma WeakerCallKeepsProfileIff(m: Entries, call: Call, addr: Addr)
    requires addr in m && !Generic(m[addr].profile) && Weaker(call, addr, m[addr].profile)
    ensures Holding(After(m, call), addr, m[addr].profile) <==> Spares(m, call, addr)
  {
  }

  /** Once displaced, it does not come back by such calls. */
  lemma DisplacedStaysDisplaced(m: Entries, call: Call, addr: Addr, held: Profile)
    requires !Generic(held) && Weaker(call, addr, held) && !Holding(m, addr, held)
    ensures !Holding(After(m, call), addr, held)
  {
  }

  lemma {:induction false} NeverComesBack(m: Entries, calls: seq<Call>, addr: Addr, held: Profile)
    requires !Generic(held) && !Holding(m, addr, held)
    requires forall i :: 0 <= i < |calls| ==> Weaker(calls[i], addr, held)
    ensures !Holding(AfterAll(m, calls), addr, held)
    decreases |calls|
  {
    hide After, Weaker, Holding;
    if calls != [] {
      DisplacedStaysDisplaced(m, calls[0], addr, held);
      NeverComesBack(After(m, calls[0]), calls[1..], addr, held);
    }
  }

  /** Every call finds the entry and spares it. */
  predicate SparedThroughout(m: Entries, calls: seq<Call>, addr: Addr)
    decreases |calls|
  {
    addr in m &&
    (calls == [] || (Spares(m, calls[0], addr) && SparedThroughout(After(m, calls[0]), calls[1..], addr)))
  }

  /** Over every sequence of calls that may not displace it, a specific profile is there in the
      end if and only if every call has spared its entry. */
  lemma {:induction false} SpecificProfileStaysIff(m: Entries, calls: seq<Call>, addr: Addr)
    requires addr in m && !Generic(m[addr].profile)
    requires forall i :: 0 <= i < |calls| ==> Weaker(calls[i], addr, m[addr].profile)
    ensures Holding(AfterAll(m, calls), addr, m[addr].profile) <==> SparedThroughout(m, calls, addr)
    decreases |calls|
  {
    hide After, Weaker, Spares;
    if calls != [] {
      var held := m[addr].profile;
      WeakerCallKeepsProfileIff(m, calls[0], addr);
      var next := After(m, calls[0]);
      if Holding(next, addr, held) {
        SpecificProfileStaysIff(next, calls[1..], addr);
      } else {
        NeverComesBack(next, calls[1..], addr, held);
      }
    }
  }

  /** The entry of `addr` is there, and within its time when the call comes. */
  predicate LiveAt(m: Entries, call: Call, addr: Addr) {
    addr in m && match call
    case CallSearch(_, now, _) => !Expired(m[addr], now)
    case CallAdd(_, _, _, now) => !Expired(m[addr], now)
    case CallRemember(_, _, _, now) => !Expired(m[addr], now)
    case CallSetAge(_, _) => true
  }

  predicate LiveThroughout(m: Entries, calls: seq<Call>, addr: Addr)
    decreases |calls|
  {
    calls == [] || (LiveAt(m, calls[0], addr) && LiveThroughout(After(m, calls[0]), calls[1..], addr))
  }

  /** In particular it stays over every sequence of calls during which its entry is live: it is
      never displaced by a generic request, nor Samsung's series B by series A. */
  lemma {:induction false} SpecificProfileStays(m: Entries, calls: seq<Call>, addr: Addr)
    requires addr in m && !Generic(m[addr].profile)
    requires LiveThroughout(m, calls, addr)
    requires forall i :: 0 <= i < |calls| ==> Weaker(calls[i], addr, m[addr].profile)
    ensures addr in AfterAll(m, calls) && AfterAll(m, calls)[addr].profile == m[addr].profile
    decreases |calls|
  {
    if calls != [] {
      WeakerCallKeepsProfileIff(m, calls[0], addr);
      SpecificProfileStays(After(m, calls[0]), calls[1..], addr);
    }
  }

  /** A specific profile stored at second 0 is replaced by a generic request that comes an hour
      and a second later without a hardware address. */
  lemma ExpiredProfileIsDisplaced(specific: Profile, request: Profile)
    requires !Generic(specific) && Generic(request)
    ensures var m: Entries := map[1 := Entry(None, specific, 0)];
      var call := CallRemember(1, request, None, 3601);
      && Weaker(call, 1, specific) && !Spares(m, call, 1)
      && After(m, call) == map[1 := Entry(None, request, 3601)]
  {
    var m: Entries := map[1 := Entry(None, specific, 0)];
    assert Search(m, 1, 3601, None).0 == map[];
    assert Live(map[], 3601) == map[];
  }

  /** What `remember` answers is what it leaves in the cache, and the request itself when it
      leaves nothing. */
  lemma RememberAnswersTheCache(m: Entries, addr: Addr, request: Profile, mac: Option<Mac>, now: nat)
    ensures var (after, profile) := Remember(m, addr, request, mac, now);
      profile == if addr in after then after[addr].profile else request
  {
  }

  /** An entry that has expired survives a search exactly when the same hardware address asks. */
  lemma ExpiryNeedsTheSameMac(m: Entries, addr: Addr, now: nat, mac: Option<Mac>)
    requires addr in m
    ensures var (after, found) := Search(m, addr, now, mac);
      && (addr in after <==> !Expired(m[addr], now) || SameMac(mac, m[addr].mac))
      && (found.Some? <==> addr in after)
      && (found.Some? ==> !Expired(after[addr], now) && after[addr].profile == m[addr].profile == found.value)
      && (forall a :: a != addr ==> (a in after <==> a in m) && (a in m ==> after[a] == m[a]))
  {
  }

  // ---------- each call in plain terms ----------

  /** The rows that stand for any renderer: unknown, DLNA 1.50 and plain UPnP. */
  predicate AnyRenderer(p: Profile) {
    p.kind == 0 || p.kind == 35 || p.kind == 36
  }

  /** A generic row displaces only the two standard ones, and Samsung's series A (row 9) does not
      displace its series B (row 10); everything else may. */
  predicate MayDisplace(held: Profile, p: Profile) {
    (AnyRenderer(p) ==> held.kind == 35 || held.kind == 36) && !(held.kind == 10 && p.kind == 9)
  }

  /** Seen within the last hour, or of the hardware address that asks. */
  predicate Kept(e: Entry, mac: Option<Mac>, now: nat) {
    now <= e.age + 3600 || (mac.Some? && e.mac == mac)
  }

  predicate Fits(m: Entries, now: nat) {
    |m| < 25 || exists a :: a in m && now > m[a].age + 3600
  }

  /** The entry with the new profile: seen now, at the new hardware address if one is known. */
  function Displaced(held: Entry, p: Profile, mac: Option<Mac>, now: nat): Entry {
    Entry(if mac.Some? then mac else held.mac, p, now)
  }

  /** The map with a new address: entries not seen for over an hour make room. */
  ghost predicate AddedTo(after: Entries, m: Entries, addr: Addr, e: Entry, now: nat) {
    && addr in after && after[addr] == e
    && forall a :: a != addr ==> (a in after <==> a in m && now <= m[a].age + 3600) &&
                                 (a in after ==> after[a] == m[a])
  }

  lemma AddMeaning(m: Entries, addr: Addr, p: Profile, mac: Option<Mac>, now: nat)
    requires |m| <= 25
    ensures var (after, stored) := Add(m, addr, p, mac, now);
      && (addr in m && MayDisplace(m[addr].profile, p) ==>
            stored && after == m[addr := Displaced(m[addr], p, mac, now)])
      && (addr in m && !MayDisplace(m[addr].profile, p) ==> stored && after == m)
      && (addr !in m && Fits(m, now) ==> stored && AddedTo(after, m, addr, Entry(mac, p, now), now))
      && (addr !in m && !Fits(m, now) ==> !stored && after == m)
  {
    AddKeepsLiveEntries(m, addr, p, mac, now);
  }

  /** A search answers the profile held, drops an entry not seen for over an hour, and counts it
      as seen now when its own hardware address asks. */
  lemma SearchMeaning(m: Entries, addr: Addr, now: nat, mac: Option<Mac>)
    ensures var (after, found) := Search(m, addr, now, mac);
      && (addr !in m ==> after == m && found == None)
      && (addr in m && Kept(m[addr], mac, now) ==> found == Some(m[addr].profile) && after == Seen(m, addr, now))
      && (addr in m && !Kept(m[addr], mac, now) ==> found == None && after == m - {addr})
  {
  }

  /** Only an entry not seen for over an hour is marked as seen now. */
  function Seen(m: Entries, addr: Addr, now: nat): Entries
    requires addr in m
  {
    if now <= m[addr].age + 3600 then m else m[addr := Entry(m[addr].mac, m[addr].profile, now)]
  }

  /** A request that displaces the entry of its address is answered with itself and cached. One
      that may not is answered with the entry held, as long as that is kept. */
  lemma RememberAtHeldAddress(m: Entries, addr: Addr, request: Profile, mac: Option<Mac>, now: nat)
    requires |m| <= 25 && addr in m
    requires AnyRenderer(request) ==> Kept(m[addr], mac, now)
    ensures var (after, profile) := Remember(m, addr, request, mac, now);
      && (MayDisplace(m[addr].profile, request) ==>
            profile == request && after == m[addr := Displaced(m[addr], request, mac, now)])
      && (!MayDisplace(m[addr].profile, request) && Kept(m[addr], mac, now) ==>
            profile == m[addr].profile && after == Seen(m, addr, now))
      && (!MayDisplace(m[addr].profile, request) && !Kept(m[addr], mac, now) ==>
            profile == request && after == m - {addr})
  {
    var searched := if AnyRenderer(request) then Seen(m, addr, now) else m;
    OneMoreKey(m, addr, m[addr].(age := now));
    SearchMeaning(m, addr, now, mac);
    AddMeaning(searched, addr, request, mac, now);
    SearchMeaning(Add(searched, addr, request, mac, now).0, addr, now, mac);
  }

  /** A request from a new address, or a generic one from an address whose entry is not kept, is
      answered with itself, and cached as it is when there is room. */
  lemma RememberAtNewAddress(m: Entries, addr: Addr, request: Profile, mac: Option<Mac>, now: nat)
    requires |m| <= 25
    requires addr in m ==> AnyRenderer(request) && !Kept(m[addr], mac, now)
    ensures var (after, profile) := Remember(m, addr, request, mac, now);
      && profile == request
      && (Fits(m - {addr}, now) ==> AddedTo(after, m, addr, Entry(mac, request, now), now))
      && (!Fits(m - {addr}, now) ==> after == m - {addr})
  {
    var searched := m - {addr};
    assert addr !in m ==> searched == m;
    SmallerMap(searched, m);
    SearchMeaning(m, addr, now, mac);
    AddMeaning(searched, addr, request, mac, now);
    SearchMeaning(Add(searched, addr, request, mac, now).0, addr, now, mac);
  }

  lemma SetAgeMeaning(m: Entries, addr: Addr, age: nat)
    ensures var after := SetAge(m, addr, age);
      && after.Keys == m.Keys
      && (forall a :: a in m && a != addr ==> after[a] == m[a])
      && (addr in m ==> after[addr] == Entry(m[addr].mac, m[addr].profile, age))
  {
  }
}
