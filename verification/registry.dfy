/**
 The registry of one test infrastructure: every host by hostname and every
 network by name, built once from two lists and read-only afterwards.
 Lookups return `Result`s where the source raises.
 */
module Registry {
  import opened Index
  import opened Results
  import opened Hosts

  datatype Infra = Infra(hosts: map<string, Host>, networks: map<string, Network>)
  {
    /** Every host is filed under its hostname and every network under its
        name. Ports naming networks that are not in `networks` are allowed:
        the registry does not check them. */
    predicate Valid()
    {
      && (forall h :: h in hosts ==> hosts[h].hostname == h)
      && (forall n :: n in networks ==> networks[n].name == n)
    }
  }

  function HostKey(h: Host): string
  {
    h.hostname
  }

  function NetworkKey(n: Network): string
  {
    n.name
  }

  /** Builds the registry. A repeated hostname or network name is not
      detected: the later entry replaces the earlier one. */
  function NewInfra(hosts: seq<Host>, networks: seq<Network>): (r: Infra)
    ensures r.Valid()
    ensures forall h :: h in r.hosts <==> exists i :: 0 <= i < |hosts| && hosts[i].hostname == h
    ensures forall i {:trigger LastWithKey(hosts, HostKey, i)} :: LastWithKey(hosts, HostKey, i) ==>
      r.hosts[hosts[i].hostname] == hosts[i]
    ensures forall n :: n in r.networks <==> exists i :: 0 <= i < |networks| && networks[i].name == n
    ensures forall i {:trigger LastWithKey(networks, NetworkKey, i)} :: LastWithKey(networks, NetworkKey, i) ==>
      r.networks[networks[i].name] == networks[i]
    ensures forall h :: h in r.hosts ==> r.hosts[h] in hosts
  {
    Infra(IndexBy(hosts, HostKey), IndexBy(networks, NetworkKey))
  }

  /** Exact lookup of a host by hostname. */
  function GetHost(inf: Infra, hostname: string): (r: Result<Host>)
    requires inf.Valid()
    ensures r.Ok? <==> hostname in inf.hosts
    ensures r.Ok? ==> r.value.hostname == hostname && r.value == inf.hosts[hostname]
    ensures r.Err? ==> r.error == KeyError(hostname)
  {
    if hostname in inf.hosts then Ok(inf.hosts[hostname]) else Err(KeyError(hostname))
  }

  /** Exact lookup of a network by name. */
  function GetNetwork(inf: Infra, name: string): (r: Result<Network>)
    requires inf.Valid()
    ensures r.Ok? <==> name in inf.networks
    ensures r.Ok? ==> r.value.name == name && r.value == inf.networks[name]
    ensures r.Err? ==> r.error == KeyError(name)
  {
    if name in inf.networks then Ok(inf.networks[name]) else Err(KeyError(name))
  }

  /** The hosts carrying one role tag, as a sub-map of the host map. */
  function HostsOfType(inf: Infra, role: string): (r: map<string, Host>)
    requires inf.Valid()
    ensures forall h :: h in r <==> h in inf.hosts && inf.hosts[h].hostType == role
    ensures forall h :: h in r ==> r[h] == inf.hosts[h] && r[h].hostname == h
  {
    map h | h in inf.hosts && inf.hosts[h].hostType == role :: inf.hosts[h]
  }

  function GetCmcs(inf: Infra): (r: map<string, Host>)
    requires inf.Valid()
    ensures forall h :: h in r <==> h in inf.hosts && inf.hosts[h].hostType == HostTypeCmc
    ensures forall h :: h in r ==> r[h] == inf.hosts[h]
  {
    HostsOfType(inf, HostTypeCmc)
  }

  function GetSlaves(inf: Infra): (r: map<string, Host>)
    requires inf.Valid()
    ensures forall h :: h in r <==> h in inf.hosts && inf.hosts[h].hostType == HostTypeSlave
    ensures forall h :: h in r ==> r[h] == inf.hosts[h]
  {
    HostsOfType(inf, HostTypeSlave)
  }

  /** Python's truth test on the optional hostname: `None` and `""` are
      both false, so both mean "any host of the role". */
  predicate Truthy(hostname: Option<string>)
  {
    hostname.Some? && hostname.value != ""
  }

  /** What `get_cmc` and `get_slave` promise for one role: with a truthy
      hostname, exact lookup among the hosts of that role only; without one,
      some host of the role, or an error when the role has none. Which host
      is picked is left open. */
  predicate RoleLookup(inf: Infra, role: string, hostname: Option<string>, r: Result<Host>)
    requires inf.Valid()
  {
    var ofRole := HostsOfType(inf, role);
    if Truthy(hostname) then
      && (r.Ok? <==> hostname.value in ofRole)
      && (r.Ok? ==> r.value == ofRole[hostname.value])
      && (r.Err? ==> r.error == KeyError(hostname.value))
    else
      && (r.Ok? <==> ofRole != map[])
      && (r.Ok? ==> r.value.hostname in ofRole && ofRole[r.value.hostname] == r.value)
      && (r.Err? ==> r.error == EmptyRoleSet(role))
  }

  /** The shared body of `get_cmc` and `get_slave`. */
  method GetOfType(inf: Infra, role: string, hostname: Option<string>) returns (r: Result<Host>)
    requires inf.Valid()
    ensures RoleLookup(inf, role, hostname, r)
    ensures r.Ok? ==> r.value.hostType == role && r.value.hostname in inf.hosts
  {
    var ofRole := HostsOfType(inf, role);
    if Truthy(hostname) {
      if hostname.value in ofRole {
        r := Ok(ofRole[hostname.value]);
      } else {
        r := Err(KeyError(hostname.value));
      }
    } else if ofRole == map[] {
      r := Err(EmptyRoleSet(role));
    } else {
      var h :| h in ofRole;
      r := Ok(ofRole[h]);
    }
  }

  method GetCmc(inf: Infra, hostname: Option<string>) returns (r: Result<Host>)
    requires inf.Valid()
    ensures RoleLookup(inf, HostTypeCmc, hostname, r)
    ensures r.Ok? ==> r.value.hostType == HostTypeCmc && r.value.hostname in GetCmcs(inf)
    ensures Truthy(hostname) && r.Ok? ==> r.value.hostname == hostname.value
  {
    r := GetOfType(inf, HostTypeCmc, hostname);
  }

  method GetSlave(inf: Infra, hostname: Option<string>) returns (r: Result<Host>)
    requires inf.Valid()
    ensures RoleLookup(inf, HostTypeSlave, hostname, r)
    ensures r.Ok? ==> r.value.hostType == HostTypeSlave && r.value.hostname in GetSlaves(inf)
    ensures Truthy(hostname) && r.Ok? ==> r.value.hostname == hostname.value
  {
    r := GetOfType(inf, HostTypeSlave, hostname);
  }

  /** No host is both a controller and a slave. */
  lemma RoleMapsDisjoint(inf: Infra)
    requires inf.Valid()
    ensures GetCmcs(inf).Keys !! GetSlaves(inf).Keys
  {
  }

  /** The two role maps together are exactly the hosts tagged with one of
      the two roles; hosts with any other tag are in neither. */
  lemma RoleMapsCover(inf: Infra)
    requires inf.Valid()
    ensures GetCmcs(inf) + GetSlaves(inf) ==
      map h | h in inf.hosts && inf.hosts[h].hostType in {HostTypeCmc, HostTypeSlave} :: inf.hosts[h]
  {
  }

  /** Counting hosts by role: no host is counted twice, and when every host
      carries one of the two tags the role maps account for all of them. */
  lemma RoleCounts(inf: Infra)
    requires inf.Valid()
    ensures |GetCmcs(inf)| + |GetSlaves(inf)| <= |inf.hosts|
    ensures (forall h :: h in inf.hosts ==> inf.hosts[h].hostType in {HostTypeCmc, HostTypeSlave}) ==>
      |GetCmcs(inf)| + |GetSlaves(inf)| == |inf.hosts|
  {
    var cmcs := GetCmcs(inf).Keys;
    var slaves := GetSlaves(inf).Keys;
    assert |cmcs + slaves| == |cmcs| + |slaves| by {
      assert cmcs !! slaves;
    }
    SubsetSize(cmcs + slaves, inf.hosts.Keys);
    if forall h :: h in inf.hosts ==> inf.hosts[h].hostType in {HostTypeCmc, HostTypeSlave} {
      assert cmcs + slaves == inf.hosts.Keys;
    }
  }

  /** A truthy hostname that names a host of the other role is rejected
      even though `get_host` finds it. */
  lemma WrongRoleRejected(inf: Infra, hostname: string)
    requires inf.Valid()
    requires hostname != "" && hostname in inf.hosts && inf.hosts[hostname].hostType == HostTypeSlave
    ensures GetHost(inf, hostname).Ok?
    ensures forall r :: RoleLookup(inf, HostTypeCmc, Some(hostname), r) ==> r == Err(KeyError(hostname))
  {
  }

  /** An empty hostname is not looked up: it behaves like no hostname, even
      when a host is registered under "". */
  lemma EmptyHostnameMeansAny(inf: Infra, role: string, r: Result<Host>)
    requires inf.Valid()
    ensures RoleLookup(inf, role, Some(""), r) == RoleLookup(inf, role, None, r)
  {
  }

  /** Lookups in a freshly built registry: every listed host and network is
      found under its own name, the last one listed under a name wins, and
      a name that was never listed fails. */
  lemma NewInfraLookups(hosts: seq<Host>, networks: seq<Network>, hostname: string, name: string)
    ensures GetHost(NewInfra(hosts, networks), hostname).Ok? <==>
      exists i :: 0 <= i < |hosts| && hosts[i].hostname == hostname
    ensures forall i {:trigger LastWithKey(hosts, HostKey, i)} :: LastWithKey(hosts, HostKey, i) ==>
      GetHost(NewInfra(hosts, networks), hosts[i].hostname) == Ok(hosts[i])
    ensures GetNetwork(NewInfra(hosts, networks), name).Ok? <==>
      exists i :: 0 <= i < |networks| && networks[i].name == name
    ensures forall i {:trigger LastWithKey(networks, NetworkKey, i)} :: LastWithKey(networks, NetworkKey, i) ==>
      GetNetwork(NewInfra(hosts, networks), networks[i].name) == Ok(networks[i])
  {
  }

  /** A controller and a slave on one "site" network. */
  lemma TwoNodeTopology()
    ensures var site := Network("site", "10.0.2.0/24");
            var c1 := NewHost("c1", HostTypeCmc, [Port(site, "10.0.2.15")]);
            var s1 := NewHost("s1", HostTypeSlave, [Port(site, "10.0.2.16")]);
            var inf := NewInfra([c1, s1], [site]);
            && GetNetwork(inf, "site") == Ok(site)
            && GetSlaves(inf) == map["s1" := s1]
            && forall r :: RoleLookup(inf, HostTypeSlave, None, r) ==> r == Ok(s1)
  {
    var site := Network("site", "10.0.2.0/24");
    var c1 := NewHost("c1", HostTypeCmc, [Port(site, "10.0.2.15")]);
    var s1 := NewHost("s1", HostTypeSlave, [Port(site, "10.0.2.16")]);
    var inf := NewInfra([c1, s1], [site]);
    assert LastWithKey([site], NetworkKey, 0);
    assert LastWithKey([c1, s1], HostKey, 0);
    assert LastWithKey([c1, s1], HostKey, 1);
    assert inf.hosts.Keys == {"c1", "s1"};
    assert GetSlaves(inf) == map["s1" := s1];
  }

  /** Two hosts named "c1" do not make construction fail: the registry
      holds one "c1", the one listed second. */
  lemma DuplicateHostnameAccepted(a: Host, b: Host)
    requires a.hostname == "c1" && b.hostname == "c1"
    ensures NewInfra([a, b], []).hosts == map["c1" := b]
  {
  }

  /** A port on a network the registry was not given is accepted: the
      host is registered and the network stays unknown. */
  lemma DanglingNetworkAccepted()
    ensures var lab := Network("lab", "192.168.0.0/24");
            var inf := NewInfra([NewHost("c1", HostTypeCmc, [Port(lab, "192.168.0.2")])], []);
            && GetHost(inf, "c1").Ok?
            && "lab" in Networks(GetHost(inf, "c1").value)
            && GetNetwork(inf, "lab") == Err(KeyError("lab"))
  {
  }
}
