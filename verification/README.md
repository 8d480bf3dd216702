# ant test-infrastructure inventory, in Dafny

This project models the inventory registry of `ant/infra/__init__.py`. The registry describes one test infrastructure:

- a **Network** is a name plus a CIDR block;
- a **Port** attaches a host to one network at an IP address;
- a **Host** has a hostname, a role tag and its ports keyed by network name. Its `networks` view is derived from the ports;
- an **Infra** holds every host by hostname and every network by name. It offers exact lookups, filtering by the two role tags `'cmc'` (controller) and `'slave'`, and "give me any host of this role".

The model is functional. Each record is an immutable datatype over Dafny `map`s and `seq`s. Lookups return a `Result` wherever the source raises.

Modules:

- `Index` (`index.dfy`) models the dict comprehension `{key(x): x for x in xs}` that builds every map the source builds from a list: `_ports`, `_hosts` and `_networks` (ant/infra/__init__.py lines 18, 114 and 115). It is defined once, generically, as `IndexBy`. Elements are inserted in list order, so a later element with an already-seen key silently replaces the earlier one. The role maps of `get_cmcs`/`get_slaves` filter an existing dict instead and are modelled by `HostsOfType`; the `networks` view maps over `_ports` and is modelled by `Networks`.
- `Results` (`results.dfy`) holds the optional `hostname` argument and the lookup outcome. `KeyError` is a missing key. `EmptyRoleSet` is "any host of a role that has none". At that point the source indexes an empty `values()` list and raises IndexError.
- `Hosts` (`hosts.dfy`) holds `Network`, `Port`, `Host`, `NewHost` (the `Host` constructor) and `Networks`.
- `Registry` (`registry.dfy`) holds `Infra`, `NewInfra` (the constructor), `get_host`, `get_network`, `get_cmcs`, `get_slaves`, `get_cmc` and `get_slave`.

Accessors map onto datatype fields:

- `hostname` and `type` are the `Host` fields `hostname` and `hostType`.
- `ports` is the field `ports`.
- `get_hosts()` and `get_networks()` are the `Infra` fields `hosts` and `networks`.

The source returns `.copy()` from these accessors. A Dafny map is a value, so reading a field already hands back an independent snapshot. Updating it (`m[k := v]`) builds a new map and cannot change the registry.

`Host.Valid()` and `Infra.Valid()` state that every entry is filed under its own name. `NewHost` and `NewInfra` establish them. The lookups require `Infra.Valid()`, which holds for every registry the source can construct.

The code validates nothing at construction, and neither does the model:

- duplicate hostnames or network names are not an error, and the later one wins (`DuplicateHostnameAccepted`);
- a port may name a network that is absent from the registry (`DanglingNetworkAccepted`);
- "any host of a role" picks an unspecified member.

## Model

| member | source | states |
|---|---|---|
| Index.IndexBy | ant/infra/__init__.py:18 | the built map's keys are exactly the keys carried by the list; the last element carrying a key is the one stored under it; every stored value is a list element filed under its own key |
| Index.IndexBySize | ant/infra/__init__.py:114 | a map built from a list has at most as many entries as the list has elements |
| Index.DistinctKeysKeepAll | ant/infra/__init__.py:114 | with no repeated key, nothing is lost: every element is stored under its key and the sizes match |
| Index.DuplicateKeyOverwrites | ant/infra/__init__.py:114 | a repeated key does not fail; the entry holds the last element carrying that key, which comes at or after the later occurrence, and the map is strictly smaller than the list |
| Hosts.NewHost | ant/infra/__init__.py:15-18 | a built host keeps its hostname and role tag; its port keys are exactly the network names of the given ports; each key holds the last port on that network; every port is filed under its network's name |
| Hosts.Networks | ant/infra/__init__.py:32-34 | the networks view has the same keys as the ports, holds each port's network, and on a well-formed host each network sits under its own name |
| Hosts.NetworksOfNewHost | ant/infra/__init__.py:15-34 | for a host built from a port list, the networks view holds exactly the networks of those ports, taken from the last port on each network |
| Hosts.SharedNetworkOverwrites | ant/infra/__init__.py:18 | two ports on one network leave one port for it, the last port on that network, so the host has fewer ports than it was given |
| Registry.NewInfra | ant/infra/__init__.py:113-115 | the host map's keys are exactly the input hostnames and the network map's keys exactly the input network names, the last entry under a name wins, every entry is filed under its own name, and every registered host is one of the listed hosts |
| Registry.GetHost | ant/infra/__init__.py:120-121 | succeeds exactly when the hostname is registered, returning the host of that hostname; otherwise a KeyError for that hostname |
| Registry.GetNetwork | ant/infra/__init__.py:148-149 | succeeds exactly when the network name is registered, returning the network of that name; otherwise a KeyError for that name |
| Registry.HostsOfType | ant/infra/__init__.py:123-126 | a sub-map of the host map holding exactly the hosts whose role tag is the given one |
| Registry.GetCmcs | ant/infra/__init__.py:123-126 | exactly the registered hosts tagged 'cmc', with the host map's values |
| Registry.GetSlaves | ant/infra/__init__.py:134-137 | exactly the registered hosts tagged 'slave', with the host map's values |
| Registry.GetOfType | ant/infra/__init__.py:128-143 | with a truthy hostname, succeeds only if that host has the role; with none or "", returns some host of the role, or EmptyRoleSet when it has none |
| Registry.GetCmc | ant/infra/__init__.py:128-132 | the role lookup for 'cmc': any success is a registered controller, and with a truthy hostname it is the host of that name |
| Registry.GetSlave | ant/infra/__init__.py:139-143 | the role lookup for 'slave': any success is a registered slave, and with a truthy hostname it is the host of that name |
| Registry.RoleMapsDisjoint | ant/infra/__init__.py:123-137 | no hostname is in both the controller map and the slave map |
| Registry.RoleMapsCover | ant/infra/__init__.py:123-137 | together the two role maps are exactly the hosts tagged 'cmc' or 'slave' |
| Registry.RoleCounts | ant/infra/__init__.py:123-137 | the two role maps together never count more hosts than are registered, and count all of them when every host is tagged 'cmc' or 'slave' |
| Registry.WrongRoleRejected | ant/infra/__init__.py:128-131 | a slave's hostname is found by get_host but the controller lookup fails on it with a KeyError |
| Registry.EmptyHostnameMeansAny | ant/infra/__init__.py:128-132 | an empty hostname is falsy, so it behaves exactly like no hostname, even if a host is registered under "" |
| Registry.NewInfraLookups | ant/infra/__init__.py:113-121 | in a freshly built registry, host and network lookups succeed exactly for listed names and return the last listed entry under each name |
| Registry.TwoNodeTopology | ant/infra/__init__.py:113-146 | a controller c1 and a slave s1 on network "site": "site" maps to CIDR 10.0.2.0/24, the slave map is just s1, and any-slave can only return s1 |
| Registry.DuplicateHostnameAccepted | ant/infra/__init__.py:113-114 | two hosts both named "c1" build a registry without error, holding only the second one |
| Registry.DanglingNetworkAccepted | ant/infra/__init__.py:113-115 | a host whose port is on a network missing from the network list is registered, while looking that network up fails |

## Left out

- Registry.GetOfType: the IndexError that `values()[0]` raises on an empty role (ant/infra/__init__.py:132, 143) is modelled as the explicit error `EmptyRoleSet`.
- Registry.GetCmc: an empty controller set gives `EmptyRoleSet` where line 132 raises IndexError.
- Registry.GetSlave: an empty slave set gives `EmptyRoleSet` where line 143 raises IndexError.
- `FabricHost.execute`, `run`, `get` and `put` (ant/infra/__init__.py:58-68) are left out. They only forward to Fabric's remote-execution functions, which is foreign I/O.
- The abstract `ssh_host_string`/`ssh_key` and the `abc` metaclass machinery are left out. They are interface declarations with no behaviour.
- `ant/infra/ntc.py` is not part of this model. Its `CMC` coordinates come from the external `vagrant` library. Its fixed topology is not well-formed as written: line 29 has mismatched brackets, and line 30 builds a `Port` with no arguments and passes it where a list is expected. `TwoNodeTopology` states a well-formed two-host example instead.
- CIDR and IP validation is left out because the source never performs it. Both are kept as opaque strings, and nothing relates an IP to its network.
- Which host "any host of a role" returns is left out. Python 2's `dict.values()[0]` returns an unspecified member, so only membership in the role map is stated.
- Defensive copies have no separate statement. Dafny maps are values, so every accessor result is already independent of the registry.
- Hostnames, role tags and names are Python objects in the source and strings here. Python truthiness is modelled for the optional hostname, where `None` and `""` are the falsy values a caller passes.
- Under Python 3, `dict.values()[0]` always raises TypeError. The model follows the Python 2 behaviour the code was written for.
