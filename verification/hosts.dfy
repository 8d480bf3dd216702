/**
 The records of the inventory: a network segment, a host's attachment to
 one network, and a host with its role tag and its attachments keyed by
 network name.
 */
module Hosts {
  import opened Index

  /** The two role tags the registry filters on. */
  const HostTypeCmc: string := "cmc"
  const HostTypeSlave: string := "slave"

  /** A named network segment; the CIDR block is kept as an opaque string. */
  datatype Network = Network(name: string, cidr: string)

  /** A binding to one network at an address; the address is opaque too. */
  datatype Port = Port(network: Network, ip: string)

  /** A host: its name, its role tag and its ports by network name.
      The tag is any string; only "cmc" and "slave" are filtered on. */
  datatype Host = Host(hostname: string, hostType: string, ports: map<string, Port>)
  {
    /** Every port is filed under the name of the network it is on. */
    predicate Valid()
    {
      forall k :: k in ports ==> ports[k].network.name == k
    }
  }

  /** The key a port is filed under. */
  function PortKey(p: Port): string
  {
    p.network.name
  }

  /** Builds a host from a port list. Two ports on the same network do not
      fail: the later one replaces the earlier. */
  function NewHost(hostname: string, hostType: string, ports: seq<Port>): (h: Host)
    ensures h.hostname == hostname && h.hostType == hostType
    ensures h.Valid()
    ensures forall k :: k in h.ports <==> exists i :: 0 <= i < |ports| && ports[i].network.name == k
    ensures forall i {:trigger LastWithKey(ports, PortKey, i)} :: LastWithKey(ports, PortKey, i) ==>
      h.ports[ports[i].network.name] == ports[i]
    ensures forall k :: k in h.ports ==> h.ports[k] in ports
  {
    Host(hostname, hostType, IndexBy(ports, PortKey))
  }

  /** The networks a host is attached to, by name, read off its ports. */
  function Networks(h: Host): (r: map<string, Network>)
    ensures r.Keys == h.ports.Keys
    ensures forall k :: k in r ==> r[k] == h.ports[k].network
    ensures h.Valid() ==> forall k :: k in r ==> r[k].name == k
  {
    map k | k in h.ports :: h.ports[k].network
  }

  /** For a host built from a port list, the network view holds exactly the
      networks of those ports, each one taken from the last port on it. */
  lemma NetworksOfNewHost(hostname: string, hostType: string, ports: seq<Port>)
    ensures forall k :: k in Networks(NewHost(hostname, hostType, ports)) <==>
      exists i :: 0 <= i < |ports| && ports[i].network.name == k
    ensures forall i {:trigger LastWithKey(ports, PortKey, i)} :: LastWithKey(ports, PortKey, i) ==>
      Networks(NewHost(hostname, hostType, ports))[ports[i].network.name] == ports[i].network
    ensures forall k :: k in Networks(NewHost(hostname, hostType, ports)) ==>
      exists i :: 0 <= i < |ports| && ports[i].network == Networks(NewHost(hostname, hostType, ports))[k]
  {
  }

  /** Two ports on one network: the host keeps one port per network name,
      the last one on it, so it has fewer ports than it was given. */
  lemma SharedNetworkOverwrites(hostname: string, hostType: string, ports: seq<Port>, i: int, j: int)
    requires 0 <= i < j < |ports| && ports[i].network.name == ports[j].network.name
    ensures |NewHost(hostname, hostType, ports).ports| < |ports|
    ensures exists k ::
      && j <= k
      && LastWithKey(ports, PortKey, k)
      && ports[k].network.name == ports[i].network.name
      && NewHost(hostname, hostType, ports).ports[ports[i].network.name] == ports[k]
  {
    DuplicateKeyOverwrites(ports, PortKey, i, j);
  }
}
