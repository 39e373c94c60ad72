# ohno: the node lifecycle, proved

`ohno` is a Kubernetes network plugin. On every node it answers CNI ADD and DEL, hands out pod
addresses from the node's podCIDR, keeps everything it knows in a shared etcd store, and runs a
reconciler that turns the store into kernel routes on the other nodes. This project is a Dafny model
of that core and a proof of what it keeps.

The store of every layer is one `map<string, string>`, the key-value pairs etcd holds. A layer is
proved against the one above it, from the text up:

| module | source | what it is |
|---|---|---|
| Text, Ipv4, Subnet | src/helper/string.cc, src/net/addr.cc, src/net/subnet.cc | tokens, address text, prefix arithmetic on 32 bits |
| Keys | src/cni/storage.cc, src/ipam/ipam.cc, src/net/nic.cc | the ten key builders, and namespace spellings |
| Etcd | src/etcd/etcd_client_shell.cc | lists kept as comma-joined text; class `Client` |
| Ipam | src/ipam/ipam.cc | the address manager; class `Ipam` |
| Storage | src/cni/storage.cc | the persisted records; class `Storage` |
| NodeModel, NodeStore, Steps | src/cni/cni.cc | abstract states of one node, the store entries that stand for each, and what one call does |
| ClusterObject, Cni | src/cni/cni.cc | the rebuilt cluster object, and ADD and DEL; class `Cni` |
| Records | src/cni/cni.cc, src/cni/storage.cc | what a pod, a node, an ADD and a DEL leave in etcd, with every key and value spelled out |
| Runs, Lifecycle, Calls | src/cni/cni.cc | sequences of calls on any number of nodes, and the theorems about them |
| RunRecords, Example | src/cni/cni.cc | what etcd holds after any run, spelled out, and one ADD letter by letter |
| Interleaving | src/ipam/ipam.cc, src/etcd/etcd_client_shell.cc | the address manager one etcd command at a time |
| Netlink, Nic | src/net/netlink/netlink_ip_cmd.cc, src/net/nic.cc | kernel tables, and a device's records of them; classes `Kernel` and `Nic` |
| Center, HostGw, Vxlan | src/backend/center_if.h, src/backend/host_gw.cc, src/backend/vxlan.cc | the two reconcilers; classes `HostGw` and `Vxlan` |
| Fabric | src/cni/cni.cc, src/backend/host_gw.cc, src/backend/vxlan.cc | runs of calls and reconciler ticks together |

How the layers meet. `Etcd.ViewOf` reads a store as a map from logical entries to lists, where an absent
key is the empty list; each storage operation is proved to be one change of that map. `NodeModel.Image`
gives, for an abstract node state, the exact list under every entry of the node, and `Steps.StoreFor`
says that a store holds exactly the image. `Cni.Add` and `Cni.Del` start by rebuilding the cluster
object, which is proved to be the image of the state, and end in a store that is the image of the next
state. So each call is a step (`Steps.AddStep`, `Steps.DelStep`) of the runs the theorems are about. The
methods of `Calls` compose real calls of separate processes, `Calls.Serve` any sequence of them, and
`HostGw.Ticks` and `Vxlan.Ticks` real ticks of one reconciler. The reconcilers read the same store through
`Ipam` and `Storage`; `Fabric` says what they make of a store that a run of calls has reached.

What the texts are. The functions that build keys and values, and those that read them back, could agree
with each other and still build the wrong text. So the contracts of ADD, DEL, the reconcilers and the
address manager also say what is stored, routed and reported without those functions: with the key texts
written out, with an address as its four decimal bytes (`Ipv4.QuadSpelling`), and with the hosts of a network
as the addresses strictly between its first and its last (`Ipam.HostsExact`). `Records` holds these statements
for single calls, `RunRecords` those for runs, and `Example.STORE` is every key and value after one ADD.

Failures. `Client.reliableReads`, `Client.reliableWrites`, `Kernel.addsSucceed` and `Kernel.delsSucceed`
say which commands never fail; any other command fails or succeeds arbitrarily, and a failed command
changes nothing. That a flag is needed is proved for reads in `append`: a failed one makes addresses in use
available again (`OverwrittenAddresses`), and for uniqueness of addresses successful reads are also enough
(`Interleaving.NoAddressTwice`). Elsewhere a flag only says for which case a clause is stated. Under failing
writes every method still promises `Kept`: a well-formed store in which no other node's entry, and no key of
another kind, has changed. `Client.lost` counts the writes that failed: each of them makes `allocateIp` pass
over one free address, and it takes two to leave a subnet listed that was not registered (`Ipam.Ipam.AllocateIp`,
`Ipam.Ipam.Register`).

Assumptions, each a precondition or a type in the text:

- no container is called `host`; in the theorems about runs a container has one device, whose name
  contains no dash, and DEL names the device ADD named (`Cni.Add` and `Cni.Del` say what other calls do);
- key components are not empty and contain no slash, comma or newline;
- the bridge, the underlay and the VXLAN device have different names;
- the API server always reports the same podCIDR for a node, a network of prefix 1 to 30 with zero host
  bits and without leading zeros; where several nodes meet, no podCIDR overlaps another's;
- where a run starts, the shared list does not hold the subnet of any of its nodes;
- for the VXLAN reconciler, no two nodes ever store the same VTEP address or the same MAC, and stored
  VTEP values have both fields;
- the kernel commands issued inside ADD and DEL succeed.

Where the code does not do what its text suggests, the code was followed, and a lemma says exactly when
the property holds:

- A pod is meant to keep one device (comments at src/cni/cni.cc:197 and 215). An ADD with another
  interface name is taken for a new pod: the pod list stays free of duplicates exactly when the container
  is unknown, the device is the one it has, or the namespace is another pod's: `Cni.Add`,
  `SecondDeviceExact`.
- A DEL with another interface name than the ADD's removes the pod's records but leaves its address
  listed, also when the node goes: the address is released exactly when the name is the device's:
  `Cni.Del`, `AddressLeft`.
- A default route of a device with a dash in its name is stored and cannot be read back; it can exactly
  when there is no dash: `DashedDeviceExact`.
- In VXLAN mode the VTEP entry goes with the first pod that is deleted, not with the last, and no ADD
  writes it again (src/cni/cni.cc:860-865): `VtepExact`; `LoseVtep` is a run of three calls.
- An ADD that finds no address leaves its pod recorded (src/cni/cni.cc:765-788): `NoAddressLeavesRecord`;
  it finds one exactly while there are fewer pods than hosts beside the gateway: `RoomExact`. The writes of
  that container's DEL give the store back exactly if they do not take the VTEP: `RefusedUndone`.
- A repeated ADD is refused unless the podCIDR is strictly inside the configured subnet
  (src/cni/cni.cc:207-213): `RepeatExact`, `AddTwice`.
- A failed read makes `append` overwrite a list (src/etcd/etcd_client_shell.cc:88-94). The list is then
  the stored one and the value exactly when the key was absent: `OverwriteExact`. For a node's address
  list it means that the first host, which is the gateway's, is given out next unless it is the one just
  listed: `OverwrittenAddresses`.
- Nodes that register or return their subnets at once can lose entries of the shared list, or bring back
  removed ones (src/ipam/ipam.cc:60-64 and 91-98). A registration adds to the list as it is exactly when
  that is still the list it read: `RegistrationExact`, `DeregistrationExact`; `LostUpdate` is a schedule
  that loses one. It has no effect on addresses: `OwnRun`.
- A subnet text with a leading zero in its prefix is returned under another text than it was registered
  under (src/ipam/node.cc:99): `NetworkTextExact`.
- A route deleted under another device text than it was added with stays in the records, as in the
  VXLAN rollback (src/backend/vxlan.cc:75 and 84): `DeletionExact`, `Vxlan.AddNode`. Edits that spell each
  route alike keep the records true: `EditRoutes`.
- Two nodes with the same podCIDR and address share a host-gateway route, and the first to go takes it
  along: `RemovalExact`, `SharedRouteIsLost`.
- A restarted host-gateway reconciler finds the routes of its predecessor. Its account is exact if and
  only if a node with its route was cached, at some tick, for every one of them: `RestartAccounts`. For
  failure-free ticks that is a condition on the snapshots and stores: `TakenExact`. `LeftoverStays` are
  ticks that never remove one.
- The VXLAN reconciler reads an endpoint again when it deletes it (src/backend/vxlan.cc:107-130). A node
  that leaves the cache takes its entries with it exactly when this node's VTEP is gone and its own is
  still the one it was installed with: `Vxlan.EventHandler`. The failing assertion in
  `delRoute` is taken as a release build takes it, which goes on.
- A node in VXLAN mode that has lost its VTEP with its first deleted pod empties its own cache at the next
  tick and withdraws the entries of the other nodes, though it may still have pods: `Fabric.VxlanTick`.
- A neighbour that is there already keeps its MAC (src/net/nic.cc:332-352), so a cached node's neighbour
  has the endpoint's MAC exactly if none with another MAC was there: `Vxlan.AddNode`,
  `Vxlan.EventHandler`.

## Model

| member | source | states |
|---|---|---|
| Text.Split | src/helper/string.cc:16-24 | the token loop reads exactly the tokens that every later result speaks of |
| Text.TokensSpelling | src/helper/string.cc:16-24 | an empty text has no token, one without the delimiter is one token, and what is behind a delimiter is split on its own |
| Text.SplitJoinExact | src/helper/string.cc:16-24 | splitting a joined list gives the list back exactly when no token contains the delimiter and the list is empty or ends in a non-empty token |
| Text.JoinSplitExact | src/helper/string.cc:16-24 | joining what was split gives the text back exactly when the text does not end in the delimiter |
| Ipv4.ParseQuadExact | src/net/addr.cc:11-50 | a text parses as an address exactly when it is that address's own rendering |
| Ipv4.DecSpelling | src/net/addr.cc:60-69 | a numeral is written digit by digit, the most significant first |
| Ipv4.QuadSpelling | src/net/subnet.cc:84-88 | the text of an address is its four bytes in decimal, the most significant first, with dots between |
| Ipv4.QuadReads | src/net/addr.cc:11-50 | what parses as an address has four parts between its dots, the numerals of the four bytes in that order |
| Ipv4.NextQuad | src/net/subnet.cc:84-88 | the texts of an address and the next one differ in the last part only, unless it is 255 |
| Ipv4.OneAddress | src/net/addr.cc:11-50 | 10.244.1.2/24 is read and written as the address 0x0AF40102 with prefix 24 |
| Ipv4.RenderedReadsBack | src/net/addr.cc:11-69 | the address text ADD stored, read again at DEL, is the same address and prefix |
| Ipv4.RenderCidrInjective | src/net/subnet.cc:84-88 | different addresses or prefixes have different texts |
| Ipv4.BareReadsBack | src/net/addr.cc:11-50 | an address without a prefix, as the VXLAN device is given, is a /32 |
| Ipv4.NetworkTextExact | src/net/subnet.cc:16-51 | a network's text survives parsing and rendering exactly when its prefix has no leading zero |
| Subnet.ExtractedAddr | src/net/subnet.cc:68-76 | cutting a network's text at the slash gives the text of its address |
| Subnet.SubnetOfExact | src/net/subnet.cc:97-102 | the subnet test is strict containment of the address ranges, both ways |
| Subnet.ContainsExact | src/net/subnet.cc:97-102 | a network contains an address exactly when they agree on as many leading bits as its prefix says |
| Subnet.SubnetOfLeadingBits | src/net/subnet.cc:97-102 | the subnet test: a longer prefix, and the same leading bits |
| Subnet.SubnetOfIsStrictOrder | src/net/subnet.cc:97-102 | no network is a subnet of itself, and the relation is transitive |
| Subnet.HostInside | src/net/subnet.cc:144-159 | for a canonical network every index the allocator tries is below 2^32, inside the network, and neither its network nor its broadcast address |
| Subnet.Pow2Spelling | src/net/subnet.cc:117-125 | the shift that counts a network's addresses doubles with every bit: 1, 256, 65536, and 2^32 for all 32 |
| Subnet.HostSpelling | src/net/subnet.cc:84-159 | the text of a host is the address as given plus the index, wrapped at 32 bits, with the prefix; for a /32 it is the address itself |
| Subnet.HostSubnetOf | src/net/subnet.cc:97-159 | a generated address is inside every network its node's network is inside of |
| Subnet.GenerateIpInjective | src/net/subnet.cc:84-88 | two host indices never render alike |
| Subnet.DisjointNetworksDisjointHosts | src/net/subnet.cc:84-88 | hosts of networks that do not overlap never render alike |
| Keys.KeySpelling | src/cni/storage.cc:497-603 | the ten key texts, as they appear in etcd |
| Keys.TokensOfKey | src/cni/storage.cc:497-603 | the text of every key splits back into the components it was built from |
| Keys.KeyTextInjective | src/cni/storage.cc:497-603 | all ten key builders are injective and pairwise disjoint |
| Keys.BothSpellings | src/net/nic.cc:463-471 | a namespace given by name or by its mount path has the same short form |
| Keys.SimpleNetnsExact | src/net/nic.cc:463-471 | wherever the mount directory occurs in a namespace text, as many characters as it and a slash have are cut off its front; a text without it is kept, and the bare directory fails |
| Etcd.AppendRefines | src/etcd/etcd_client_shell.cc:84-95 | appending to the text of a list appends to the list |
| Etcd.StaleAppendExact | src/etcd/etcd_client_shell.cc:84-95 | a put made from an earlier read leaves the list that was read and the value; it adds to the list as it is now exactly when the two lists are equal |
| Etcd.OverwriteExact | src/etcd/etcd_client_shell.cc:88-94 | overwriting a list after a failed read adds the value exactly when the key was absent; otherwise every other entry is lost |
| Etcd.RemoveRefines | src/etcd/etcd_client_shell.cc:174-190 | deleting a value from the text filters out every copy, and the key goes exactly when nothing is left |
| Etcd.WithoutExact | src/etcd/etcd_client_shell.cc:174-190 | filtering drops the value and keeps every other one, in order |
| Etcd.ReadEntry | src/etcd/etcd_client_shell.cc:105-119 | reading an entry gives its tokens joined, and the empty text exactly for an absent one |
| Etcd.PutEntry | src/etcd/etcd_client_shell.cc:66-74 | a put changes its own entry and nothing else |
| Etcd.AppendEntry | src/etcd/etcd_client_shell.cc:84-95 | an append changes its own entry and nothing else |
| Etcd.RemoveEntry | src/etcd/etcd_client_shell.cc:174-190 | a deletion of a value changes its own entry and nothing else |
| Etcd.DelEntry | src/etcd/etcd_client_shell.cc:156-163 | a deletion of a key empties its own entry and nothing else |
| Etcd.StoreDetermined | src/etcd/etcd_client_shell.cc:66-209 | a store is determined by its logical entries and the keys that are no entry |
| Etcd.Client.Get | src/etcd/etcd_client_shell.cc:105-119 | the stored text without newlines, empty when the command fails |
| Etcd.Client.Append | src/etcd/etcd_client_shell.cc:84-95 | the value is added to the stored list when the read went through, and replaces it when it did not; a failed put changes nothing |
| Etcd.Client.List | src/etcd/etcd_client_shell.cc:200-209 | the tokens of the stored text |
| Etcd.Client.DelValue | src/etcd/etcd_client_shell.cc:174-190 | the rebuilt text has every copy of the value removed; the key is deleted instead of being emptied |
| Ipam.FirstFree | src/ipam/ipam.cc:147-158 | the least host index not in use; none exactly when all are |
| Ipam.HostsExact | src/net/subnet.cc:117-159 | the indices the allocator tries are two fewer than the addresses of the network, and reach exactly the addresses strictly between its network and its broadcast address |
| Ipam.FirstFitExact | src/ipam/ipam.cc:147-158 | first fit on addresses: the lowest one strictly between the network and the broadcast address whose text is not in use, and a refusal exactly when all are |
| Ipam.FreeWhileNotFull | src/ipam/ipam.cc:147-158 | pigeonhole: a list shorter than the number of hosts leaves one free |
| Ipam.OverwrittenAddresses | src/ipam/ipam.cc:147-158 | after an append that overwrote a node's list every address given out before is available again, and the next one given out is the first host, the gateway's, or the second if the first was the one just listed |
| Ipam.Ipam.GetSubnet | src/ipam/ipam.cc:112-124 | succeeds exactly with the non-empty stored subnet |
| Ipam.Ipam.AllocateSubnet | src/ipam/ipam.cc:49-72 | returns the stored subnet without a write when it is read, and otherwise registers the reported one, also a stored one whose read failed; rolls the shared list back when the second write fails |
| Ipam.Ipam.Register | src/ipam/ipam.cc:59-71 | the subnet is listed and assigned; when the second write fails the shared list is rolled back, and the subnet stays listed only when yet another command fails |
| Ipam.Ipam.ReleaseSubnet | src/ipam/ipam.cc:82-102 | removes the node's subnet and its text from the shared list, and nothing else; a failure in the middle leaves the text listed |
| Ipam.Ipam.IsIpAvailable | src/ipam/ipam.cc:215-228 | available exactly when not listed, or when the read failed |
| Ipam.Ipam.AllocateIp | src/ipam/ipam.cc:134-163 | the address was not listed and is appended; with reliable writes it is the first free one, and only a full list is refused; with failing writes it is the first free one after as many others as writes failed, and it is refused only when every free one cost a write; after a failed read it replaces the list; throws exactly for a subnet that cannot be allocated from |
| Ipam.Ipam.ReleaseIp | src/ipam/ipam.cc:173-186 | removes the address from the node's list, and nothing else |
| Storage.RouteValueExact | src/cni/storage.cc:584-591 | a route value splits into its three fields exactly when none has a dash, the empty default destination included |
| Storage.VtepValueExact | src/cni/storage.cc:612-617 | a VTEP value splits into its two fields exactly when neither has a dash |
| Storage.Storage.AddPod | src/cni/storage.cc:112-129 | sets the reverse index and appends to the pod list, which a failed read replaces; a failed second write leaves the first |
| Storage.Storage.DelPod | src/cni/storage.cc:139-156 | removes from the list the pod the reverse index names, and the index; nothing changes when it names none; a failure in the middle leaves the pod listed |
| Storage.Storage.GetPod | src/cni/storage.cc:165-174 | the pod of a namespace, empty exactly when there is none or the read failed |
| Storage.Storage.GetAllRoutes | src/cni/storage.cc:399-419 | the stored routes in order, the three fields of each split at the dashes; none when the read fails |
| Storage.Storage.GetVtep | src/cni/storage.cc:470-488 | the two fields of the stored VTEP, split at the dash, both empty when there is none or the read fails |
| NodeStore.CreateMatches | src/cni/cni.cc:562-617 | the writes that create a node carry a store without it to exactly the image of the new node |
| NodeStore.PodMatches | src/cni/cni.cc:705-788 | the writes of a new pod carry the image of a node to the image of the node with the pod |
| NodeStore.AddressesWithout | src/ipam/ipam.cc:173-186 | releasing a pod's address removes that one address from the node's list |
| NodeStore.PodGoneMatches | src/cni/cni.cc:651-665 | the deletions of a pod carry the image of a node to the image of the node without it |
| NodeStore.NodeGoneMatches | src/cni/cni.cc:293-310 | the deletions of a teardown leave no entry of the node, in every mode |
| ClusterObject.NicReadsBack | src/cni/cni.cc:412-430 | the addresses and routes stored for a device read back as the device |
| ClusterObject.FreshHost | src/cni/cni.cc:705-716 | an address that is not listed is no pod's and not the gateway's |
| ClusterObject.ReportReadsBack | src/cni/cni.cc:230-240 | the reported texts parse as the address with its prefix and the gateway they are made from |
| ClusterObject.DashedDeviceExact | src/cni/storage.cc:584-591 | a pod's stored default route reads back exactly when its device's name has no dash |
| ClusterObject.SecondDeviceExact | src/cni/cni.cc:765-796 | the writes of a device list the container once more; the list stays free of duplicates exactly when the container was unknown |
| ClusterObject.AddressLeft | src/cni/cni.cc:826-868 | after a DEL, with or without the node's teardown, the pod's address is listed exactly when the DEL named another device |
| ClusterObject.WithPodImage | src/cni/cni.cc:627-641 | the cluster object with the new pod is the one a rebuild from the new store gives |
| ClusterObject.WithoutPodImage | src/cni/cni.cc:284-293 | the cluster object without the pod is the one a rebuild gives, and it has one namespace left exactly when that was the last pod |
| Records.HostText | src/net/subnet.cc:84-159 | the text of a host is its address, the network's plus its index, and the prefix |
| Records.PodStateTexts | src/cni/cni.cc:705-796 | for every pod of a node: the five keys of its records and their texts, with the address and the gateway its ADD reports, and that the pod and the address are listed |
| Records.NodeStateTexts | src/cni/cni.cc:448-617 | for every node: the keys of its subnet, root namespace and devices and their texts; the VTEP text in VXLAN mode as long as it is stored |
| Records.AddTexts | src/cni/cni.cc:705-796 | the writes of a new device, key by key: each text is the old one with one entry more, nothing else changes on a node that was there, the address was unlisted, and as first fit it has only listed ones below |
| Records.RefusalTexts | src/cni/cni.cc:758-788 | a namespace stored as another pod's is what refuses an ADD, and nothing changes; without an address the pod's records stay |
| Records.AbsentTexts | src/cni/cni.cc:293-310 | without the node there is none of its keys |
| Records.DelTexts | src/cni/cni.cc:252-310 | the deletions of a DEL, key by key: a pod's records go and its place in the two lists, nothing else changes; with the last pod every key of the node goes and its subnet is returned; under another device's name the device, its route and its address stay |
| Cni.Cni.ReadAddrs | src/cni/cni.cc:413-421 | every stored address is parsed, and the bridge's first one becomes the gateway if none is known |
| Cni.Cni.GetKubernetesCluster | src/cni/cni.cc:379-440 | the rebuilt object is exactly the image of the node's state, and the gateway is the node's |
| Cni.Cni.GetBridge | src/cni/cni.cc:448-475 | stores the bridge and its address, which is the gateway |
| Cni.Cni.GetVxlan | src/cni/cni.cc:484-524 | stores the VXLAN device, its network address and the VTEP |
| Cni.Cni.GetRootPod | src/cni/cni.cc:533-553 | stores the root namespace both ways and as the first pod |
| Cni.Cni.CreateNode | src/cni/cni.cc:562-617 | a new node's store and object are the image of the node with its gateway; with reliable writes the gateway is the first host |
| Cni.Cni.ConfigPodNetwork | src/cni/cni.cc:705-745 | the pod gets an unlisted address, the first free one when writes are reliable, and the default route through the gateway; the three texts that are stored are spelled out, the next hop being the gateway; without an address nothing is written |
| Cni.Cni.RecordPod | src/cni/cni.cc:765-788 | the namespace both ways, the place in the list and the device, with the texts stored under the four keys |
| Cni.Cni.CreateNic | src/cni/cni.cc:758-818 | for any device that is not known: a namespace of another pod is refused, exactly then and before any write; otherwise the pod and the device are recorded on a free address |
| Cni.Cni.Confirm | src/cni/cni.cc:199-219 | a known device is confirmed exactly when its address lies in the configured subnet, and then its first address with the prefix and the gateway without are reported |
| Cni.Cni.Add | src/cni/cni.cc:152-244 | a container's first device, or the one it has: a step of the abstract node; any other device: what is written, when it is refused and when it finds an address, exactly. The reported address is the text stored under the device's key and listed for the node, a host's, unlisted before and with only listed ones below when writes are reliable; the stored route goes via the reported gateway; every key that is written is named with its text, and no other changes on a node that was there. The pod list stays free of duplicates exactly when the container is unknown, the device is the one it has, or the namespace is another pod's |
| Cni.Cni.DelNic | src/cni/cni.cc:826-868 | a device's address is released unless it is the underlay, its entries are deleted, and in VXLAN mode the VTEP with them |
| Cni.Cni.DelPod | src/cni/cni.cc:651-665 | a pod's namespace records and its place in the list are deleted |
| Cni.Cni.Teardown | src/cni/cni.cc:293-310 | the root namespace's devices and records, the node's subnet and its entry in the shared list are deleted |
| Cni.Cni.Del | src/cni/cni.cc:252-316 | with reliable etcd and the device the ADD named a step of the abstract node; with another device what is left, and that the pod's address stays listed exactly then; in both cases which keys go, what leaves the lists and that nothing else changes, key by key; an unknown container changes nothing; in any case no other node's entry changes |
| Runs.StartInv | src/cni/cni.cc:379-391 | a store without entries of the nodes is where runs start |
| Runs.StepKeepsInv | src/cni/cni.cc:152-316 | every call on any node keeps every node's store exact, its gateway the first host, and the shared list equal to its start and the subnets of the existing nodes |
| Runs.RunKeepsInv | src/cni/cni.cc:152-316 | the invariant holds after every run |
| Runs.LiveIsOrder | src/cni/cni.cc:152-316 | a node's pods are those its ADDs and DELs leave, in the order of the ADDs |
| Lifecycle.Conservation | src/ipam/ipam.cc:134-186 | after every run a node's address list has no duplicates and holds the gateway and one address per live pod, the one stored for its device |
| Lifecycle.IndexesHold | src/cni/storage.cc:112-156 | after every run namespaces and pods point at each other, the list has every pod once, every pod has a device with one address and one route, which decodes as the default route via the first host on that device, and the subnet is stored exactly while there is a pod |
| Lifecycle.GatewayStable | src/cni/cni.cc:583-590 | the gateway is always the network address plus one, every result reports it, and no pod is ever given it |
| Lifecycle.VtepExact | src/cni/cni.cc:860-865 | the VTEP is stored exactly until the first deletion of a pod after the node was created |
| Lifecycle.NoAddressLeavesRecord | src/cni/cni.cc:765-796 | an ADD that finds no address leaves records that break the indexes |
| Lifecycle.RefusedUndone | src/cni/cni.cc:826-868 | the writes of the DEL of such a container restore every entry but, in VXLAN mode, the VTEP, which they delete; the store is as it was exactly if that changes nothing |
| Lifecycle.NoAddressTwice | src/ipam/ipam.cc:134-163 | after every run no address is in use on two nodes |
| Lifecycle.RoundTrip | src/cni/cni.cc:284-310 | a run that starts with no node and in which every ADD is later matched by its DEL gives back exactly the starting store, in every mode |
| Lifecycle.SameWhileLive | src/cni/cni.cc:230-244 | while a pod lives, its ADD reports the same address and gateway, whatever is called in between |
| Lifecycle.RepeatExact | src/cni/cni.cc:203-213 | the check of a repeated ADD passes exactly when the podCIDR is strictly inside the configured subnet |
| Lifecycle.RoomExact | src/ipam/ipam.cc:147-162 | an ADD finds an address exactly while the node has fewer pods than hosts beside the gateway, which are three fewer than the addresses of its network |
| RunRecords.AskedIs | src/cni/cni.cc:152-316 | after every run the namespace and device of a pod are those its first ADD named since it was last deleted |
| RunRecords.RecordsHold | src/cni/cni.cc:152-316 | after every run, with keys and texts spelled out: nothing of a node without pods; otherwise the records of its root namespace, its pods as the calls leave them, and one distinct address for each, beside the gateway's, recorded with the namespace and device its ADD named and the route via the first host; that address is what the ADD reports |
| RunRecords.ReportIsWitness | src/cni/cni.cc:230-240 | the address an ADD reports for a live pod is its place of the address list and the one its device has |
| RunRecords.SubnetsAfterRun | src/ipam/ipam.cc:49-102 | after every run the shared list is what it was and the podCIDR texts of exactly the nodes with pods, each once |
| Calls.AddThenDel | src/cni/cni.cc:152-316 | an ADD and its DEL by two processes both go through and give the store back |
| Calls.AddTwice | src/cni/cni.cc:174-244 | an ADD that went through, repeated by another process, writes nothing, succeeds exactly when the podCIDR is strictly inside the configured subnet, and then gives the same answer, also when writes may fail |
| Calls.DelTwice | src/cni/cni.cc:252-316 | a DEL repeated by another process leaves the store the first one left |
| Calls.LoseVtep | src/cni/cni.cc:860-865 | in VXLAN mode two ADDs and the DEL of the first pod leave a node with a pod and without a VTEP |
| Calls.Serve | src/cni/cni.cc:152-316 | any sequence of ADDs and DELs on any nodes, each by a process of its own, is a run of the kind the theorems are about, up to the first ADD that finds its node full; which ADDs are refused on the way is exact |
| Example.FirstAdd | src/cni/cni.cc:152-244 | the first ADD on an empty store, for podCIDR 10.244.1.0/24 in VXLAN mode: the answer is 10.244.1.2/24 with gateway 10.244.1.1, and the store has exactly the fifteen keys of `STORE` with their texts |
| Interleaving.StepFrames | src/ipam/ipam.cc:49-186 | a command of one node changes nothing another node reads of its own |
| Interleaving.StepAgrees | src/ipam/ipam.cc:49-102 | a node's next command does the same whatever the shared list holds |
| Interleaving.OwnRun | src/ipam/ipam.cc:49-186 | in every interleaving, with any failures, a node's subnet and addresses are what its own turns alone make of them |
| Interleaving.StepKeeps | src/ipam/ipam.cc:134-186 | with reliable reads every single command keeps the node's list duplicate-free and of its own network |
| Interleaving.NoAddressTwice | src/ipam/ipam.cc:134-163 | in every interleaving, with any failed writes, no address is listed twice, on one node or on two with disjoint networks |
| Interleaving.StepKeepsShared | src/ipam/ipam.cc:49-102 | every command of every node leaves a well-formed shared list |
| Interleaving.RegistrationExact | src/ipam/ipam.cc:60-64 | whatever other nodes do between a node's read and its write, the shared list is then what it read and its subnet; it is the list as it was just before and the subnet exactly when nothing changed in between; an entry made in between survives exactly if it was in what was read |
| Interleaving.DeregistrationExact | src/ipam/ipam.cc:91-98 | the same for the return of a subnet: entries made in between are lost, and removed ones are back |
| Interleaving.LostUpdate | src/etcd/etcd_client_shell.cc:84-95 | two registrations that read before either writes lose the first one's subnet |
| Interleaving.SoloAllocates | src/ipam/ipam.cc:134-163 | undisturbed and whatever fails, the commands of an allocation append the first host that is not seen to be listed and whose write goes through, to the list as it was read; with no failure that is first fit, as the class is proved to do |
| Interleaving.SoloRegisters | src/ipam/ipam.cc:49-72 | those of a subnet allocation likewise: for every outcome of its commands which of the two writes and the rollback are in the store |
| Interleaving.SoloReleases | src/ipam/ipam.cc:82-102 | those of a subnet release likewise: for every outcome of its three commands |
| Interleaving.SoloFrees | src/ipam/ipam.cc:173-186 | those of an address release likewise: for every outcome of its two commands |
| Netlink.Kernel.AddRoute | src/net/netlink/netlink_ip_cmd.cc:296-308 | adds a route that is not there, on the named device or one the kernel picks, or changes nothing |
| Netlink.KeyOfExact | src/net/netlink/netlink_ip_cmd.cc:296-308 | two routes are one exactly if they agree in next hop and destination, no destination being the default; otherwise the destination is the one given |
| Netlink.Kernel.DelRoute | src/net/netlink/netlink_ip_cmd.cc:296-308 | deletes a matching route, on any device when none is named, or changes nothing |
| Netlink.Kernel.AddFdb | src/net/netlink/netlink_ip_cmd.cc:392-403 | adds a destination for a MAC that has none on the device, or changes nothing |
| Nic.DeletionExact | src/net/nic.cc:277-298 | a deletion keeps every record true exactly when all records of the route name the same destination text and device |
| Nic.Nic.AddRoute | src/net/nic.cc:248-266 | the route is in the kernel and recorded, or nothing changed; records stay true |
| Nic.Nic.DelRoute | src/net/nic.cc:277-298 | the matching route and its records are gone, or nothing changed |
| Nic.Nic.AddNeigh | src/net/nic.cc:332-352 | an existing neighbour is recorded whatever its MAC |
| Nic.Nic.DelNeigh | src/net/nic.cc:363-385 | the neighbour and its records are gone, or nothing changed |
| Nic.Nic.AddFdb | src/net/nic.cc:394-415 | the FDB entry is in the kernel and recorded, or nothing changed |
| Nic.Nic.DelFdb | src/net/nic.cc:426-448 | the FDB entry and its records are gone, or nothing changed |
| Nic.Nic.AddAddr | src/net/nic.cc:168-185 | the address is in the kernel and recorded, or nothing changed |
| Nic.Nic.DelAddr | src/net/nic.cc:194-213 | the address is gone; its record only if the kernel had it |
| Nic.Nic.Cleanup | src/net/nic.cc:26-40 | when deletions succeed exactly the recorded routes are gone, and for devices of its own also the addresses and the link |
| Nic.EditRoutes | src/net/nic.cc:248-298 | additions and deletions in any order, with any failures, keep every record true as long as each kernel route is always spelt alike |
| HostGw.AddAccounts | src/backend/host_gw.cc:63-76 | caching a node with its route keeps the account, also when the route was there |
| HostGw.AccountedRoutes | src/backend/host_gw.cc:51-95 | what an account says: the podCIDR of every cached node is routed via its address, and every other route was there before |
| HostGw.RemovalExact | src/backend/host_gw.cc:81-92 | erasing a node with its route keeps the account exactly when no other cached node and no unrelated route has it |
| HostGw.SharedRouteIsLost | src/backend/host_gw.cc:81-92 | two nodes with one route: erasing one breaks the account |
| HostGw.TickAccounts | src/backend/host_gw.cc:36-95 | whatever fails in a tick, the kernel has the unrelated routes, unchanged, and exactly those of the cache; this node is not cached |
| HostGw.RunAccounts | src/backend/host_gw.cc:36-95 | the same over every run of ticks with any cluster snapshots, stores and failures |
| HostGw.RestartAccounts | src/backend/host_gw.cc:36-95 | after a restart, over every run and whatever fails, the kernel has the unrelated routes, those of the cache and otherwise only leftovers; a leftover is accounted for, and from then on, exactly if a node with its route was ever cached, and the account is exact if and only if this holds of all |
| HostGw.TakenExact | src/backend/host_gw.cc:42-95 | in failure-free ticks a leftover was taken over exactly if some snapshot had a node with its route to cache under its store; when no node changes its route, exactly if both nodes were persisted under a snapshot that has it |
| HostGw.TickSettles | src/backend/host_gw.cc:42-95 | a failure-free tick makes the cache the old cache and the cluster without this node, as far as persisted, or empty when this node is not; the walk order has no say |
| HostGw.SettledAsStored | src/backend/host_gw.cc:42-95 | that cache in terms of the stored texts: the nodes cached before or told of, other than this one, whose subnet text is stored while this node's is |
| HostGw.CachedRouted | src/backend/host_gw.cc:51-95 | after a tick the podCIDR of every cached node is routed via its address, if those of the cached ones were before and no two nodes share an address |
| HostGw.RemovedGone | src/backend/host_gw.cc:81-93 | after a tick no removed node's podCIDR is routed via its address |
| HostGw.SecondTickIdle | src/backend/host_gw.cc:42-95 | a second tick on the same snapshot changes nothing |
| HostGw.HostGw.Install | src/backend/host_gw.cc:51-77 | a persisted, uncached other node is cached exactly when its route is in place: its podCIDR via its address |
| HostGw.HostGw.Remove | src/backend/host_gw.cc:81-93 | a node is erased exactly with its route, that of its podCIDR via its address, when it or this node is not persisted |
| HostGw.HostGw.EventHandler | src/backend/host_gw.cc:36-95 | a tick adds and removes nodes with their routes and does nothing else: every cached node's podCIDR is routed via its address if those before were and addresses differ, a removed node's is not; without failures the cache is exactly the nodes whose subnet text is stored |
| HostGw.Ticks | src/backend/host_gw.cc:36-95 | successive ticks, with the store changing in between, are a run of the kind the account is proved for, and a failure-free one when nothing fails |
| HostGw.RoutedTicks | src/backend/host_gw.cc:36-95 | over any ticks, whatever fails: at the end the podCIDR of every cached node is routed via its address, and no other route is there that was not at the start |
| HostGw.TickTwice | src/backend/host_gw.cc:42-95 | of two failure-free ticks on one snapshot the first settles the cache and the second changes nothing |
| HostGw.LeftoverStays | src/backend/host_gw.cc:36-95 | when no snapshot has a node with the route of a leftover, it is there after any number of ticks, is no cached node's, and spoils the account |
| Vxlan.Vxlan.AddNode | src/backend/vxlan.cc:61-97 | a node that is cached has all three entries on `ohnov`: its podCIDR via the endpoint's address, the neighbour of that address, and the endpoint's MAC to its own address; its neighbour has the endpoint's MAC exactly if no neighbour with another one was there; one that is not has none, when none were there and the rollback commands succeed; when adding succeeds it is refused exactly for a route on another device or a MAC with another underlay address; a rollback leaves the record of the deleted route; no other entry changes |
| Vxlan.VtepSpelled | src/cni/storage.cc:470-488 | the endpoint read for a node is the text under its key split at the dash: the address, then the MAC |
| Vxlan.Vxlan.RemoveNode | src/backend/vxlan.cc:103-130 | the entries named by the endpoint read now are deleted, all three of them when deletions succeed, the node is erased in any case, and an empty endpoint deletes nothing |
| Vxlan.OtherInstalled | src/backend/vxlan.cc:54-130 | adding or removing one node's entries leaves another's installed |
| Vxlan.Vxlan.EventHandler | src/backend/vxlan.cc:40-134 | after any tick every cached node has its three entries, spelled out, with the endpoint's MAC exactly if no stale neighbour was there; a node cached anew has the address and MAC of the stored text; this node is not cached, and foreign entries are unchanged; without failures the cache holds exactly the right nodes, and a node that leaves it takes its entries along exactly when this node's VTEP is gone and its own is the one it was installed with |
| Vxlan.Ticks | src/backend/vxlan.cc:40-134 | over every run of ticks, with any failures, snapshots and stores, every cached node has its three entries, its neighbour the endpoint's MAC after a tick exactly if none with another MAC was there before it, and what belongs to none of the nodes met is unchanged; when reads and deletions succeed the tables hold nothing but what was there at the start, the entries of the cached nodes and those the ticks leaked |
| Fabric.PersistedExact | src/backend/host_gw.cc:42-49 | after any run of calls a node counts as persisted exactly while the calls leave it a pod |
| Fabric.HostGwTick | src/backend/host_gw.cc:36-95 | a failure-free tick after a run of calls caches exactly the nodes the calls leave pods, and none when they leave this node none |
| Fabric.StoredExact | src/backend/vxlan.cc:46-59 | the endpoint read for a node is its network address and MAC exactly until its first pod is deleted, and empty otherwise |
| Fabric.EndpointsHold | src/backend/vxlan.cc:46-59 | the stores that runs reach meet what the VXLAN reconciler assumes of them |
| Fabric.VxlanTick | src/backend/vxlan.cc:40-134 | a tick after a run of calls: the cache holds exactly the nodes whose VTEP the calls leave; a node that has lost its own empties its cache and withdraws the entries of every node whose VTEP is still the one they were made with |

## Left out

- Shell, etcdctl, `ip` and `bridge` commands and the text they print: an abstract store and abstract kernel tables whose commands may fail. Probes of the kernel are taken as reliable and their substring matches as exact.
- The output of a failed `get` is taken as empty; what a failing shell leaves in the variable is not modelled.
- Kernel commands inside ADD and DEL (device creation, renaming, moving between namespaces, setting links up, `nicPluginBridge`): taken to succeed. The lifecycle results are about the store and the cluster object.
- Cni.Cni.Add: when a write fails in the middle only `Kept` is stated, because no compensation is coded; the run theorems are about successful calls and about refusals that write nothing, and end at an ADD that finds its node full. Calls on a store that such a failure, a second device or a dashed device name has left are not covered; a container named `host` and CNI_NETNS values without a usable short name, which the code does not check for, are excluded.
- Cni.Cni.Del: when etcd fails in the middle it stops where it is or only logs, so only `Kept` is stated for that case.
- Cni.Cni.GetKubernetesCluster: devices whose setup, or whose kernel address or route, fails are skipped by the code; here they always load.
- Cni.Cni.ReadAddrs: an address text that does not parse, which the code keeps as an address without a version, is excluded; no call stores one.
- Cni.Cni.GetBridge: a failing bridge setup, which throws, and a failing kernel address, which leaves the stored address out, do not occur.
- Cni.Cni.GetVxlan: a failing device setup and an unreadable MAC, which throw after the first writes, do not occur.
- Cni.Cni.CreateNode: kernel failures between its writes do not occur.
- Cni.Cni.ConfigPodNetwork: failing kernel addresses and routes, which throw and leave the address listed, do not occur.
- Cni.Cni.Confirm: the existence probe and the renaming of the device have no effect here, and the configured subnet parses.
- Cni.Cni.DelNic: cleaning up the device in the kernel is `Nic.Nic.Cleanup`, and not part of it.
- The cluster, node and namespace objects of src/ipam are values here, not shared objects; aliasing between them is not captured, and a node with one namespace is recognised by the size of a map, as the code does.
- Ipam.Ipam.AllocateIp: a subnet of prefix 0 is excluded, because the host count (src/net/subnet.cc:117-125) then shifts by 32 bits, which C++ leaves undefined. Prefixes 31 and 32 are covered here but not by the lifecycle.
- Storage.Storage.AddPod: a CNI_NETNS whose short form contains a slash, such as a path outside the mount directory, is excluded, since its keys are not of the ten kinds; the same holds for the next two.
- Storage.Storage.DelPod: likewise.
- Storage.Storage.GetPod: likewise.
- IPv6: the code throws on it.
- Neighbour probes without a device, and the device the kernel picks for a route without one: the first are not used, the second is arbitrary.
- Netlink.Kernel.AddRoute: Linux refuses a second next hop for one destination and metric; this table keeps one route per destination and next hop.
- Interleaving: the CNI calls themselves are atomic towards other nodes here; only the address manager is taken apart into its commands.
- The stored address of the reconcilers' own node changing between two reads of one tick: a tick sees one store; failing reads are covered.
- EVPN: its lifecycle is that of the other modes without a VXLAN device; its device setup is a sequence of commands without state.
- HTTP, tokens, kubeconfig and JSON, CLI, logging, threads, sleeping and signals: snapshots and ticks stand for them.
- Random device names and short hashes: only their freshness would matter.
