/**
 * The registry as the client runs it: an object holding the contents of
 * `config.json` (None while the file does not exist) and the header directories
 * created beside it. Each method follows the source's steps and is proved against
 * the matching function of module Registry.
 */
module ConfigFile {
  import opened Wrappers
  import opened JsText
  import opened Registry

  class Config {
    var file: Option<Store>
    /** The `${dir}/${addr}` directories created for header data, by address. */
    var headerDirs: set<string>

    ghost predicate Valid()
      reads this
    {
      file.Some? ==> file.value.Valid()
    }

    constructor (initial: Option<Store>)
      requires initial.Some? ==> initial.value.Valid()
      ensures Valid() && file == initial && headerDirs == {}
    {
      file := initial;
      headerDirs := {};
    }

    /** addGroup: orient the pair, scan for a duplicate, write the entry and create the directories. */
    method AddGroup(reg: Registration) returns (r: Result<(), ConfigError>)
      requires Valid()
      modifies this
      ensures Valid()
      ensures (r, file) == Registry.AddGroup(old(file), reg)
      ensures var g := Orient(reg);
        headerDirs == if r.Ok? then old(headerDirs) + {g.addrA, g.addrB} else old(headerDirs)
    {
      var hostA, addrA, hostB, addrB;
      if NumGreater(ParseInt(reg.addr1, Auto), ParseInt(reg.addr0, Auto)) {
        hostA, addrA, hostB, addrB := reg.host0, reg.addr0, reg.host1, reg.addr1;
      } else {
        hostA, addrA, hostB, addrB := reg.host1, reg.addr1, reg.host0, reg.addr0;
      }
      var g := Group(hostA, hostB, addrA, addrB, None);
      var data := if file.None? then EmptyStore else file.value;
      var i := addrA + "_" + addrB;
      // `data[i] = {}` keeps (or gives) `i` its place; its emptied entry never matches.
      var keys := if i in data.entries then data.keys else data.keys + [i];
      var isSaved := false;
      var j := 0;
      while j < |keys|
        invariant 0 <= j <= |keys|
        invariant isSaved <==> exists n :: 0 <= n < j && keys[n] != i && keys[n] in data.entries
                                           && SameEndpoints(data.entries[keys[n]], g)
      {
        var k := keys[j];
        if k != i && k in data.entries && SameEndpoints(data.entries[k], g) {
          isSaved := true;
        }
        j := j + 1;
      }
      assert isSaved <==> SavedElsewhere(data, i, g) by {
        if SavedElsewhere(data, i, g) {
          var k :| k in data.entries && k != i && SameEndpoints(data.entries[k], g);
          assert k in data.keys;
          var n :| 0 <= n < |data.keys| && data.keys[n] == k;
          assert keys[n] == k;
        }
      }
      if isSaved {
        r := Err(AlreadySaved);
      } else {
        file := Some(data.Put(i, g));
        headerDirs := headerDirs + {addrA, addrB};
        r := Ok(());
      }
    }

    /** addPeers: push every new `host:port` of `peers` onto the group's list and count them. */
    method AddPeers(peers: seq<Endpoint>, index: string) returns (r: Result<nat, ConfigError>)
      requires Valid()
      modifies this`file
      ensures Valid()
      ensures (r, file) == Registry.AddPeers(old(file), peers, index)
    {
      if file.None? {
        return Err(ConfigMissing);
      }
      var data := file.value;
      if index !in data.entries {
        return Err(UnknownGroup(index));
      }
      var list := data.entries[index].peers.GetOr([]);
      ghost var before := list;
      ghost var strs := EndpointStrings(peers);
      var count := 0;
      var i := 0;
      while i < |peers|
        invariant 0 <= i <= |peers|
        invariant list == AppendNew(before, strs[..i])
        invariant count + |before| == |list|
      {
        var p := peers[i].host + ":" + peers[i].port;
        assert strs[..i + 1][..i] == strs[..i];
        if p !in list {
          list := list + [p];
          count := count + 1;
        }
        i := i + 1;
      }
      assert strs[..|peers|] == strs;
      file := Some(data.Put(index, data.entries[index].(peers := Some(list))));
      r := Ok(count);
    }

    /** getAllHosts: `[addrA, hostA]` then `[addrB, hostB]` for every group, in file order. */
    method GetAllHosts() returns (r: Result<seq<(string, string)>, ConfigError>)
      requires Valid()
      ensures r.Err? <==> file.None?
      ensures r.Err? ==> r.error == NoHostsSaved && r.error.Message() == Some("No hosts saved.")
      ensures r.Ok? ==> r.value == HostPairs(file.value.entries, file.value.keys)
    {
      if file.None? {
        return Err(NoHostsSaved);
      }
      var data := file.value;
      var hosts: seq<(string, string)> := [];
      var i := 0;
      while i < |data.keys|
        invariant 0 <= i <= |data.keys|
        invariant hosts == HostPairs(data.entries, data.keys[..i])
      {
        var g := data.entries[data.keys[i]];
        assert data.keys[..i + 1][..i] == data.keys[..i];
        hosts := hosts + [(g.addrA, g.hostA)];
        hosts := hosts + [(g.addrB, g.hostB)];
        i := i + 1;
      }
      assert data.keys[..|data.keys|] == data.keys;
      r := Ok(hosts);
    }

    /** getPeers: load the group's stored `host:port` list into one peer per distinct string. */
    method GetPeers(index: string) returns (r: Result<map<string, Peer>, ConfigError>)
      requires Valid()
      ensures file.None? ==> r == Err(NoPeersSaved) && r.error.Message() == Some("No peers saved.")
      ensures file.Some? && index !in file.value.entries ==> r == Err(UnknownGroup(index))
      ensures file.Some? && index in file.value.entries && file.value.entries[index].peers.None? ==>
        r == Err(NoPeerList(index))
      ensures r.Ok? <==> file.Some? && index in file.value.entries && file.value.entries[index].peers.Some?
      ensures r.Ok? ==> var list := file.value.entries[index].peers.value;
        && r.value.Keys == set h | h in list
        && (forall h :: h in list ==> h in r.value && r.value[h] == PeerOf(h))
        && (NoDuplicates(list) ==> |r.value| == |list|)
    {
      if file.None? {
        return Err(NoPeersSaved);
      }
      if index !in file.value.entries {
        return Err(UnknownGroup(index));
      }
      var stored := file.value.entries[index].peers;
      if stored.None? {
        return Err(NoPeerList(index));
      }
      var peers := LoadPeers(stored.value, map[]);
      if NoDuplicates(stored.value) {
        DistinctCount(stored.value);
        assert peers.Keys == set h | h in stored.value;
      }
      r := Ok(peers);
    }
  }

  /**
   * loadPeers: take hosts off the end of the list one at a time and file a peer under
   * each, on top of the peers already collected.
   */
  method LoadPeers(hosts: seq<string>, acc: map<string, Peer>) returns (peers: map<string, Peer>)
    ensures peers.Keys == acc.Keys + set h | h in hosts
    ensures forall h :: h in hosts ==> peers[h] == PeerOf(h)
    ensures forall k :: k in acc && k !in hosts ==> peers[k] == acc[k]
    decreases |hosts|
  {
    if |hosts| == 0 {
      return acc;
    }
    var host := hosts[|hosts| - 1];
    var rest := hosts[..|hosts| - 1];
    var peer := PeerOf(host);
    peers := LoadPeers(rest, acc[host := peer]);
    assert forall h :: h in hosts <==> h in rest || h == host;
  }
}
