/**
 * The bridge-group and peer registry kept in `config.json`, as values: the file is an
 * `Option<Store>` (None when it does not exist) and every operation is a function from
 * the file before to its result and the file after. The class in config.dfy runs the
 * same operations step by step and is proved against these functions.
 */
module Registry {
  import opened Wrappers
  import opened JsText

  /** One entry of the file: the two sides of a bridge and, once added, its peers. */
  datatype Group = Group(hostA: string, hostB: string, addrA: string, addrB: string, peers: Option<seq<string>>)

  /**
   * The parsed file: its property names in the order JavaScript enumerates them
   * (insertion order for these non-numeric names) and the entry under each name.
   */
  datatype Store = Store(keys: seq<string>, entries: map<string, Group>) {
    ghost predicate Valid()
    {
      && (forall i, j :: 0 <= i < j < |keys| ==> keys[i] != keys[j])
      && (forall k :: k in entries <==> k in keys)
    }

    /** `data[k] = g`: a new name goes last, an existing one keeps its place. */
    function Put(k: string, g: Group): (s: Store)
      requires Valid()
      ensures s.Valid()
      ensures k in s.entries && s.entries[k] == g
      ensures forall k' :: k' in entries && k' != k ==> k' in s.entries && s.entries[k'] == entries[k']
      ensures s.entries.Keys == entries.Keys + {k}
      ensures k in entries ==> s.keys == keys
      ensures k !in entries ==> s.keys == keys + [k]
    {
      Store(if k in entries then keys else keys + [k], entries[k := g])
    }
  }

  const EmptyStore := Store([], map[])

  /** The errors the registry reports; the first four carry the source's own messages. */
  datatype ConfigError =
    | AlreadySaved
    | ConfigMissing
    | NoPeersSaved
    | NoHostsSaved
    | NoConfigFile
    | UnknownGroup(index: string)
    | NoPeerList(index: string)
  {
    function Message(): Option<string>
    {
      match this
      case AlreadySaved => Some("Bridge group already saved.")
      case ConfigMissing => Some("Config file does not exist. Start by adding a bridge with --add")
      case NoPeersSaved => Some("No peers saved.")
      case NoHostsSaved => Some("No hosts saved.")
      case _ => None
    }
  }

  // ---------------------------------------------------------------------------
  // getNetIndex
  // ---------------------------------------------------------------------------

  /** The network index of two bridge addresses: the string-smaller one first. */
  function NetIndex(a: string, b: string): string
  {
    if StrLess(a, b) then a + "_" + b else b + "_" + a
  }

  /** The index does not depend on the order of the two addresses. */
  lemma NetIndexSymmetric(a: string, b: string)
    ensures NetIndex(a, b) == NetIndex(b, a)
    ensures !StrLess(b, a) ==> NetIndex(a, b) == a + "_" + b
    ensures StrLess(b, a) ==> NetIndex(a, b) == b + "_" + a
  {
    StrLessTrichotomy(a, b);
  }

  // ---------------------------------------------------------------------------
  // addGroup
  // ---------------------------------------------------------------------------

  /** The argument of addGroup: `[host0, addr0, host1, addr1]`. */
  datatype Registration = Registration(host0: string, addr0: string, host1: string, addr1: string)

  /** `x > y` on two results of parseInt: false as soon as either is NaN. */
  predicate NumGreater(x: Option<int>, y: Option<int>)
  {
    x.Some? && y.Some? && x.value > y.value
  }

  /** The entry addGroup writes: the second side becomes B only if its address is strictly greater. */
  function Orient(reg: Registration): Group
  {
    if NumGreater(ParseInt(reg.addr1, Auto), ParseInt(reg.addr0, Auto))
    then Group(reg.host0, reg.host1, reg.addr0, reg.addr1, None)
    else Group(reg.host1, reg.host0, reg.addr1, reg.addr0, None)
  }

  /** The name addGroup files an entry under. */
  function GroupKey(g: Group): string
  {
    g.addrA + "_" + g.addrB
  }

  predicate SameEndpoints(g: Group, h: Group)
  {
    g.hostA == h.hostA && g.hostB == h.hostB && g.addrA == h.addrA && g.addrB == h.addrB
  }

  /**
   * The duplicate scan. The entry under the new key has just been emptied, so it
   * never matches: only an entry under another name can.
   */
  predicate SavedElsewhere(s: Store, key: string, g: Group)
  {
    exists k :: k in s.entries && k != key && SameEndpoints(s.entries[k], g)
  }

  /** addGroup: the result and the file afterwards. */
  function AddGroup(file: Option<Store>, reg: Registration): (out: (Result<(), ConfigError>, Option<Store>))
    requires file.Some? ==> file.value.Valid()
    ensures out.1.Some? ==> out.1.value.Valid()
  {
    var g := Orient(reg);
    var key := GroupKey(g);
    var data := file.GetOr(EmptyStore);
    if SavedElsewhere(data, key, g) then (Err(AlreadySaved), file)
    else (Ok(()), Some(data.Put(key, g)))
  }

  /**
   * Each host stays with its own address, and the address filed as A is never
   * numerically greater than the one filed as B.
   */
  lemma OrientOrdersByValue(reg: Registration)
    ensures var g := Orient(reg);
      || (g.hostA == reg.host0 && g.addrA == reg.addr0 && g.hostB == reg.host1 && g.addrB == reg.addr1)
      || (g.hostA == reg.host1 && g.addrA == reg.addr1 && g.hostB == reg.host0 && g.addrB == reg.addr0)
    ensures var g := Orient(reg);
      ParseInt(g.addrA, Auto).Some? && ParseInt(g.addrB, Auto).Some? ==>
        ParseInt(g.addrA, Auto).value <= ParseInt(g.addrB, Auto).value
    ensures Orient(reg).peers == None
  {
  }

  /** Swapping the two sides files the same entry when both addresses parse to different numbers. */
  lemma OrientSymmetric(reg: Registration)
    requires ParseInt(reg.addr0, Auto).Some? && ParseInt(reg.addr1, Auto).Some?
    requires ParseInt(reg.addr0, Auto) != ParseInt(reg.addr1, Auto)
    ensures Orient(reg) == Orient(Registration(reg.host1, reg.addr1, reg.host0, reg.addr0))
  {
  }

  /** Rejection happens exactly when another name holds the same four fields, and then nothing changes. */
  lemma AddGroupRejects(file: Option<Store>, reg: Registration)
    requires file.Some? ==> file.value.Valid()
    ensures var out := AddGroup(file, reg);
      out.0.Err? <==> file.Some? && SavedElsewhere(file.value, GroupKey(Orient(reg)), Orient(reg))
    ensures var out := AddGroup(file, reg);
      out.0.Err? ==> out.0.error == AlreadySaved && out.1 == file
    ensures var out := AddGroup(file, reg);
      out.0.Err? ==> out.0.error.Message() == Some("Bridge group already saved.")
  {
  }

  /**
   * A successful addGroup writes exactly the four fields under its own key (dropping any
   * peers filed there before), leaves every other name and entry as it was, and keeps
   * the order of the names.
   */
  lemma AddGroupOnlyTouchesItsKey(file: Option<Store>, reg: Registration)
    requires file.Some? ==> file.value.Valid()
    requires AddGroup(file, reg).0.Ok?
    ensures var g := Orient(reg); var key := GroupKey(g); var s := AddGroup(file, reg).1;
      && s.Some?
      && key in s.value.entries
      && s.value.entries[key] == Group(g.hostA, g.hostB, g.addrA, g.addrB, None)
    ensures var key := GroupKey(Orient(reg)); var s := AddGroup(file, reg).1.value;
      var before := file.GetOr(EmptyStore);
      && s.entries.Keys == before.entries.Keys + {key}
      && (forall k :: k in before.entries && k != key ==> s.entries[k] == before.entries[k])
      && s.keys[..|before.keys|] == before.keys
  {
  }

  /** Every entry sits under the name addGroup would give it. */
  ghost predicate WellKeyed(s: Store)
  {
    forall k :: k in s.entries ==> k == GroupKey(s.entries[k])
  }

  /**
   * On a file only addGroup has written, the duplicate scan never fires: registering
   * the same pair again succeeds, replaces the entry and loses its peers.
   */
  lemma {:induction false} ReRegistrationReplaces(file: Option<Store>, reg: Registration)
    requires file.Some? ==> file.value.Valid() && WellKeyed(file.value)
    ensures var out := AddGroup(file, reg);
      && out.0.Ok?
      && WellKeyed(out.1.value)
      && out.1.value.entries[GroupKey(Orient(reg))].peers == None
  {
    var g := Orient(reg);
    var key := GroupKey(g);
    var data := file.GetOr(EmptyStore);
    forall k | k in data.entries && k != key
      ensures !SameEndpoints(data.entries[k], g)
    {
      assert k == GroupKey(data.entries[k]);
    }
    var s := data.Put(key, g);
    forall k | k in s.entries
      ensures k == GroupKey(s.entries[k])
    {
      if k != key {
        assert k in data.entries;
      }
    }
  }

  /**
   * When both addresses are `0x` followed by lower-case hex digits of one length,
   * getNetIndex and addGroup name the pair the same way.
   */
  lemma NetIndexMatchesGroupKey(reg: Registration)
    requires |reg.addr0| == |reg.addr1| && |reg.addr0| > 2
    requires reg.addr0[..2] == "0x" && reg.addr1[..2] == "0x"
    requires AllLowerHex(reg.addr0[2..]) && AllLowerHex(reg.addr1[2..])
    ensures NetIndex(reg.addr0, reg.addr1) == GroupKey(Orient(reg))
  {
    var x, y := reg.addr0[2..], reg.addr1[2..];
    assert reg.addr0 == "0x" + x && reg.addr1 == "0x" + y;
    HexLiteralValue(x);
    HexLiteralValue(y);
    HexOrderMatchesValue(x, y);
    HexOrderMatchesValue(y, x);
    StrLessCommonPrefix("0x", x, y);
    StrLessCommonPrefix("0x", y, x);
    StrLessTrichotomy(x, y);
  }

  /** `parseInt` of a `0x` word of hex digits written by toString(16), as used in the examples. */
  lemma ParsesAs(word: string, n: nat, width: nat)
    requires word == "0x" + LeftPad(ToHex(n), width, '0')
    ensures ParseInt(word, Auto) == Some(n)
  {
    HexWordRoundTrip(n, width, Auto);
  }

  lemma ShortAddressesNetIndex()
    ensures NetIndex("0x9", "0x10") == "0x10_0x9"
  {
    assert StrLess("1", "9");
    StrLessCommonPrefix("0x", "10", "9");
    assert "0x9" == "0x" + "9" && "0x10" == "0x" + "10";
  }

  lemma ShortAddressesGroupKey()
    ensures GroupKey(Orient(Registration("h0", "0x9", "h1", "0x10"))) == "0x9_0x10"
  {
    NineParses();
    SixteenParses();
    assert NumGreater(ParseInt("0x10", Auto), ParseInt("0x9", Auto));
    var g := Orient(Registration("h0", "0x9", "h1", "0x10"));
    assert g == Group("h0", "h1", "0x9", "0x10", None);
    assert GroupKey(g) == "0x9" + "_" + "0x10";
  }

  lemma NineParses()
    ensures ParseInt("0x9", Auto) == Some(9)
  {
    assert ToHex(9) == "9";
    ParsesAs("0x9", 9, 1);
  }

  lemma SixteenParses()
    ensures ParseInt("0x10", Auto) == Some(16)
  {
    assert ToHex(16) == "10";
    ParsesAs("0x10", 16, 2);
  }

  /** With addresses of different lengths the two namings part: `0x9` and `0x10`. */
  lemma NetIndexDiffersFromGroupKey()
    ensures NetIndex("0x9", "0x10") != GroupKey(Orient(Registration("h0", "0x9", "h1", "0x10")))
  {
    ShortAddressesNetIndex();
    ShortAddressesGroupKey();
    assert "0x10_0x9"[2] != "0x9_0x10"[2];
  }

  /**
   * The registration `["http://chainA:8545", "0x02", "http://chainB:8545", "0x01"]`
   * is filed under `0x01_0x02` with the smaller address and its host as side A.
   */
  lemma SwappedRegistrationExample()
    ensures var g := Orient(Registration("http://chainA:8545", "0x02", "http://chainB:8545", "0x01"));
      && GroupKey(g) == "0x01_0x02"
      && g.addrA == "0x01" && g.hostA == "http://chainB:8545"
      && g.addrB == "0x02" && g.hostB == "http://chainA:8545"
  {
    ParsesAs("0x01", 1, 2);
    ParsesAs("0x02", 2, 2);
    assert !NumGreater(ParseInt("0x01", Auto), ParseInt("0x02", Auto));
    var g := Orient(Registration("http://chainA:8545", "0x02", "http://chainB:8545", "0x01"));
    assert g == Group("http://chainB:8545", "http://chainA:8545", "0x01", "0x02", None);
    assert GroupKey(g) == "0x01" + "_" + "0x02";
  }

  // ---------------------------------------------------------------------------
  // addPeers
  // ---------------------------------------------------------------------------

  /** A peer as addPeers receives it: `peer.host.host` and `peer.host.port`. */
  datatype Endpoint = Endpoint(host: string, port: string)

  /** The `host:port` string a peer is stored as. */
  function EndpointString(e: Endpoint): string
  {
    e.host + ":" + e.port
  }

  function EndpointStrings(ps: seq<Endpoint>): (r: seq<string>)
    ensures |r| == |ps| && forall i :: 0 <= i < |ps| ==> r[i] == EndpointString(ps[i])
  {
    if ps == [] then [] else [EndpointString(ps[0])] + EndpointStrings(ps[1..])
  }

  /** Push each string of `ps`, in order, unless the list already holds it. */
  function AppendNew(list: seq<string>, ps: seq<string>): seq<string>
  {
    if ps == [] then list
    else
      var prev := AppendNew(list, ps[..|ps| - 1]);
      if ps[|ps| - 1] in prev then prev else prev + [ps[|ps| - 1]]
  }

  predicate NoDuplicates(s: seq<string>)
  {
    forall i, j :: 0 <= i < j < |s| ==> s[i] != s[j]
  }

  /** addPeers: the number of peers added and the file afterwards. */
  function AddPeers(file: Option<Store>, peers: seq<Endpoint>, index: string): (out: (Result<nat, ConfigError>, Option<Store>))
    requires file.Some? ==> file.value.Valid()
    ensures out.1.Some? ==> out.1.value.Valid()
    ensures file.None? ==> out.0.Err? && out.0.error.Message() == Some("Config file does not exist. Start by adding a bridge with --add")
  {
    if file.None? then (Err(ConfigMissing), file)
    else if index !in file.value.entries then (Err(UnknownGroup(index)), file)
    else
      var g := file.value.entries[index];
      var before := g.peers.GetOr([]);
      var after := AppendNew(before, EndpointStrings(peers));
      AppendNewExtends(before, EndpointStrings(peers));
      (Ok(|after| - |before|), Some(file.value.Put(index, g.(peers := Some(after)))))
  }

  /**
   * The old list is kept as a prefix; everything after it comes from `ps`, was not in
   * the old list and appears once; every string of `ps` ends up in the list.
   */
  lemma {:induction false} AppendNewExtends(list: seq<string>, ps: seq<string>)
    ensures var r := AppendNew(list, ps);
      && |r| >= |list| && r[..|list|] == list
      && (forall i :: |list| <= i < |r| ==> r[i] in ps && r[i] !in list)
      && (forall i, j :: |list| <= i < j < |r| ==> r[i] != r[j])
      && (forall p :: p in ps ==> p in r)
      && |r| - |list| <= |ps|
  {
    if ps != [] {
      var init := ps[..|ps| - 1];
      AppendNewExtends(list, init);
      var prev := AppendNew(list, init);
      assert forall p :: p in init ==> p in ps;
      assert forall p :: p in ps ==> p in init || p == ps[|ps| - 1];
      var r := AppendNew(list, ps);
      if ps[|ps| - 1] !in prev {
        assert r == prev + [ps[|ps| - 1]];
        assert r[..|list|] == prev[..|list|];
      }
    }
  }

  /** Nothing is pushed when every string is already in the list. */
  lemma {:induction false} AppendNewPresent(list: seq<string>, ps: seq<string>)
    requires forall p :: p in ps ==> p in list
    ensures AppendNew(list, ps) == list
  {
    if ps != [] {
      AppendNewPresent(list, ps[..|ps| - 1]);
    }
  }

  /** A list without duplicates stays without duplicates. */
  lemma {:induction false} AppendNewNoDuplicates(list: seq<string>, ps: seq<string>)
    requires NoDuplicates(list)
    ensures NoDuplicates(AppendNew(list, ps))
  {
    if ps != [] {
      AppendNewNoDuplicates(list, ps[..|ps| - 1]);
    }
  }

  /** Fresh, distinct peers are appended exactly in input order. */
  lemma {:induction false} AppendNewFresh(list: seq<string>, ps: seq<string>)
    requires NoDuplicates(ps) && forall p :: p in ps ==> p !in list
    ensures AppendNew(list, ps) == list + ps
  {
    if ps != [] {
      var init := ps[..|ps| - 1];
      AppendNewFresh(list, init);
      assert ps[|ps| - 1] !in init;
      assert list + init + [ps[|ps| - 1]] == list + ps;
    }
  }

  /**
   * Adding the same peers a second time adds none and leaves the file as it was; a
   * peer list without duplicates keeps none after the first call.
   */
  lemma AddPeersIdempotent(file: Option<Store>, peers: seq<Endpoint>, index: string)
    requires file.Some? ==> file.value.Valid()
    requires AddPeers(file, peers, index).0.Ok?
    ensures var once := AddPeers(file, peers, index);
      AddPeers(once.1, peers, index) == (Ok(0), once.1)
    ensures var g := file.value.entries[index];
      NoDuplicates(g.peers.GetOr([])) ==> NoDuplicates(AddPeers(file, peers, index).1.value.entries[index].peers.value)
  {
    var g := file.value.entries[index];
    var strs := EndpointStrings(peers);
    var after := AppendNew(g.peers.GetOr([]), strs);
    AppendNewExtends(g.peers.GetOr([]), strs);
    AppendNewPresent(after, strs);
    var s := file.value.Put(index, g.(peers := Some(after)));
    assert s.entries[index].peers.GetOr([]) == after;
    assert s.Put(index, s.entries[index]) == s;
    if NoDuplicates(g.peers.GetOr([])) {
      AppendNewNoDuplicates(g.peers.GetOr([]), strs);
    }
  }

  // ---------------------------------------------------------------------------
  // getFirstIndex, getHosts, getAllHosts
  // ---------------------------------------------------------------------------

  /** getFirstIndex: the first name in the file, if any; a missing file is an error. */
  function FirstIndex(file: Option<Store>): (r: Result<Option<string>, ConfigError>)
    requires file.Some? ==> file.value.Valid()
    ensures r.Err? <==> file.None?
    ensures r.Ok? && r.value.Some? ==> r.value.value in file.value.entries
    ensures r.Ok? ==> (r.value.None? <==> file.value.entries == map[])
  {
    if file.None? then Err(NoConfigFile)
    else if file.value.keys == [] then Ok(None)
    else Ok(Some(file.value.keys[0]))
  }

  /** getHosts: the two hosts of a group; a missing file reports 'No peers saved.'. */
  function GetHosts(file: Option<Store>, index: string): (r: Result<(string, string), ConfigError>)
    ensures file.None? ==> r == Err(NoPeersSaved) && r.error.Message() == Some("No peers saved.")
    ensures r.Ok? <==> file.Some? && index in file.value.entries
    ensures r.Ok? ==> r.value == (file.value.entries[index].hostA, file.value.entries[index].hostB)
  {
    if file.None? then Err(NoPeersSaved)
    else if index !in file.value.entries then Err(UnknownGroup(index))
    else Ok((file.value.entries[index].hostA, file.value.entries[index].hostB))
  }

  /** A group registered into a missing or empty file is the one getFirstIndex finds. */
  lemma FirstIndexAfterAddGroup(file: Option<Store>, reg: Registration)
    requires file.None? || file == Some(EmptyStore)
    ensures var out := AddGroup(file, reg);
      out.0.Ok? && FirstIndex(out.1) == Ok(Some(GroupKey(Orient(reg))))
  {
  }

  /** After addGroup, getHosts on the group's key gives its hosts, side A first. */
  lemma HostsAfterAddGroup(file: Option<Store>, reg: Registration)
    requires file.Some? ==> file.value.Valid()
    requires AddGroup(file, reg).0.Ok?
    ensures var g := Orient(reg);
      GetHosts(AddGroup(file, reg).1, GroupKey(g)) == Ok((g.hostA, g.hostB))
    ensures var g := Orient(reg);
      {GetHosts(AddGroup(file, reg).1, GroupKey(g)).value.0, GetHosts(AddGroup(file, reg).1, GroupKey(g)).value.1}
        == {reg.host0, reg.host1}
  {
  }

  /** The (address, host) pairs getAllHosts pushes for the given names, in order. */
  function HostPairs(entries: map<string, Group>, keys: seq<string>): seq<(string, string)>
    requires forall k :: k in keys ==> k in entries
  {
    if keys == [] then []
    else
      var g := entries[keys[|keys| - 1]];
      HostPairs(entries, keys[..|keys| - 1]) + [(g.addrA, g.hostA), (g.addrB, g.hostB)]
  }

  /** Two pairs per group, side A then side B, in the order of the names. */
  lemma {:induction false} HostPairsLayout(entries: map<string, Group>, keys: seq<string>)
    requires forall k :: k in keys ==> k in entries
    ensures |HostPairs(entries, keys)| == 2 * |keys|
    ensures forall i :: 0 <= i < |keys| ==>
      && HostPairs(entries, keys)[2 * i] == (entries[keys[i]].addrA, entries[keys[i]].hostA)
      && HostPairs(entries, keys)[2 * i + 1] == (entries[keys[i]].addrB, entries[keys[i]].hostB)
  {
    if keys != [] {
      HostPairsLayout(entries, keys[..|keys| - 1]);
    }
  }

  /** After addGroup, the enumeration of all hosts lists both sides of the new group. */
  lemma AllHostsAfterAddGroup(file: Option<Store>, reg: Registration)
    requires file.Some? ==> file.value.Valid()
    requires AddGroup(file, reg).0.Ok?
    ensures var s := AddGroup(file, reg).1.value; var g := Orient(reg);
      && (g.addrA, g.hostA) in HostPairs(s.entries, s.keys)
      && (g.addrB, g.hostB) in HostPairs(s.entries, s.keys)
  {
    var s := AddGroup(file, reg).1.value;
    var key := GroupKey(Orient(reg));
    HostPairsLayout(s.entries, s.keys);
    var i :| 0 <= i < |s.keys| && s.keys[i] == key;
    assert HostPairs(s.entries, s.keys)[2 * i] == (s.entries[key].addrA, s.entries[key].hostA);
    assert HostPairs(s.entries, s.keys)[2 * i + 1] == (s.entries[key].addrB, s.entries[key].hostB);
  }

  // ---------------------------------------------------------------------------
  // loadPeers
  // ---------------------------------------------------------------------------

  /** A loaded peer: the host split on ':' gives its host and, if present, its port. */
  datatype Peer = Peer(host: string, port: Option<string>)

  function PeerOf(host: string): Peer
  {
    var params := Split(host, ':');
    Peer(params[0], if |params| > 1 then Some(params[1]) else None)
  }

  /** A peer stored by addPeers loads back as the same host and port. */
  lemma PeerOfEndpoint(e: Endpoint)
    requires ':' !in e.host && ':' !in e.port
    ensures PeerOf(EndpointString(e)) == Peer(e.host, Some(e.port))
  {
    SplitJoined(e.host, e.port, ':');
    assert EndpointString(e) == e.host + [':'] + e.port;
  }

  /** A list without duplicates has as many distinct members as elements. */
  lemma {:induction false} DistinctCount(s: seq<string>)
    requires NoDuplicates(s)
    ensures |set h | h in s| == |s|
  {
    if s != [] {
      var init := s[..|s| - 1];
      DistinctCount(init);
      assert (set h | h in s) == (set h | h in init) + {s[|s| - 1]};
      assert s[|s| - 1] !in init;
    }
  }
}
