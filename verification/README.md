# Verified model of the ovs-p4rt table programming and the gNMI and performance clients

A Dafny model, with proofs, of four parts of the repository. `dafny verify dfyconfig.toml`
checks the whole project.

1. **ES2K table programming** (`FdbTable`, `TunnelTable`, `VlanTable`, `IpMacTable`,
   `TxAccVsi`, `Encoders`, `Written`, `P4Runtime`). One Open vSwitch event becomes several separate
   reads and writes on a P4Runtime server, with no transaction around them; some callers
   ignore statuses, others return early. The methods follow the program call by call on a
   `Client` object; each is proved equal to a step function on the server's tables, and
   `FdbTheorems`, `FdbClassification`, `FdbForwarding`, `TunnelTheorems` and
   `TunnelHistory` (and the second halves of `VlanTable` and `IpMacTable`) prove what
   every run of steps keeps. The configurators refine the learn-once table of `LearnOnce`:
   a key keeps the first value it was given until it is forgotten, so its content can be
   read off the history. For tunnels this, and being all or nothing at all, holds exactly
   while they are compatible. What the entries then say (`Written`, `TunnelWritten` and the
   laws over all runs) is stated in tables, action ids and bytes, with each parameter found
   by its id, and not through the encoders.
2. **The in-place key/value tokenizer of gnmi-ctl** (`KeyValue`, `KeyValueRoundTrip`). A
   buffer of characters is cut into strings by writing terminators into it, over repeated
   calls. `ScanEnd` is the depth-counting scan that the nested loops refine, `Call` is one
   call on the whole buffer, `Tokens` is what all calls together yield.
3. **The two gNMI path parsers** (`GnmiPath`) and the "set" command around the tokenizer
   and one of them (`GnmiCtl`, `GnmiSet`). The regular expression is a hand-written matcher, proved
   against the pattern stated with quantifiers.
4. **Byte encodings and work partitioning** (`Bytes`, `OvsTypes`, `PerfTest`): big-endian
   values mod 2^n, the doubled and swapped ports, and the division of table entries over
   threads.

## Assumptions

- The server is a map from (table, match list) to action. INSERT fails exactly when the
  key is present, DELETE and READ exactly when it is absent; the source's "return if entry
  already exists" relies on the latter (section 12 of the P4Runtime Specification v1.3.0). A request
  without a table, or an insert without an action id, is rejected, and a read without a
  table fails. That is what the messages left blank for unknown tunnel types and mixed
  address families lead to.
- The host is little-endian. `Htons` swaps bytes, and the address union is read as bytes.
- A tunnel type byte other than VXLAN and GENEVE is `Unknown`, a family other than AF_INET
  and AF_INET6 is `AfOther`.
- `plain` deletes are those with is_tunnel false and families not both IPv6; `well formed`
  inserts have, if they are for a tunnel, a known type and families both IPv4 or both IPv6.

## Where the code and its comments or promises differ

The model follows the code.

- `es2k_config_tunnel_entry.cc:141` says NATIVE_TAGGED above the helper that is called for
  every other mode. Hence `TunnelTheorems.TaggingAgrees`: for the modes that are neither
  NATIVE_TAGGED nor NATIVE_UNTAGGED decap pushes a VLAN tag that encap never popped.
- `es2k_encoders.cc:384-387` speaks of dst_port * 2. The code doubles the byte-swapped port
  and cuts it to 16 bits; `Bytes.DoubledPortMeaning` says exactly when that is the same.
- `do_config_ip_mac_map_entry.cc:23-26` means to reject the loopback address, but compares
  a network-order address with a host-order constant: 127.0.0.1 passes, and 1.0.0.127, an
  ordinary address, is rejected. `IpMacTable.ValidIpAddrExactly` gives the rejected addresses and
  `IpMacTable.ValidIpAddrAsIntended` shows that these two are the only errors. The
  destination half is gated by the source address.
- `es2k_config_fdb_entry.cc:226-251` promises to find out whether an entry is a tunnel. It
  does, under the conditions of `FdbTheorems.RunClassified`. Without them
  `FdbClassification.StepKeepsTied` and `FdbClassification.RunKeepsTied` say exactly which events
  break the tables apart; the failing runs are `FdbTheorems.TwoBridgesMisclassify` (learned on two
  bridges) and `FdbClassification.WrongBridgeMisclassifies` (deleted on another bridge than learned
  on; so learning on one bridge only is not enough). A VLAN delete
  leaves the RX entry (`FdbTheorems.VlanInsertLeavesRx`).
- A call of ConfigTunnelEntry that stops half way can leave a tunnel half installed:
  `TunnelTheorems.TornByDelete` and `TunnelTheorems.TornByInserts` give the runs.
- `extract_interface_node` appends the parts of the node in the order they come, so a name
  before the device is accepted and makes a path that is no node's: `GnmiSet.NameBeforeDevice`.
  A wholly empty token, such as a lone "=" makes, ends the loop of the "set" command and drops
  every later parameter, while the program still reports success: `GnmiSet.RequestsExactly` and
  `GnmiSet.LoneDelimiterStops`. `extract_interface_node` returns -1 as a bool, so true means failure.

## Model

| member | source | states |
|---|---|---|
| `FdbTheorems.RunShows` | ovs-p4rt/sidecar/core/v3/es2k_config_fdb_entry.cc:319-333 | Refinement: from empty tables, after every run in which each MAC has one home bridge, inserts are well formed and deletes are plain, the five tables show exactly the learn-once table of the run (MAC to the first learn after its last delete) and nothing elsewhere |
| `FdbTheorems.StepShows` | ovs-p4rt/sidecar/core/v3/es2k_config_fdb_entry.cc:262-333 | One event of ConfigFdbEntry, with its reads and up to four separate writes, is one atomic learn or forget on the abstract table |
| `FdbForwarding.ForwardingLaw` | ovs-p4rt/sidecar/core/v3/es2k_config_fdb_entry.cc:319-333 | Over every run from empty tables, on any bridges, with deletes of any shape and malformed inserts: the l2_fwd_tx entry of a MAC and bridge exists exactly when some accepted learn there (well-formed, its port resolved) is the first after the last delete there, and says what that learn asked for: for a VLAN the port that tx_acc_vsi resolves, cut to eight bits, with its VLAN if untagged, under RemoveVlanAndFwd or L2Fwd; for a tunnel the action of its type, family and tagging, with a tunnel id worth the VNI mod 2^20 |
| `FdbForwarding.ReceiveLaw` | ovs-p4rt/sidecar/core/v3/es2k_config_fdb_entry.cc:287-315 | Over every such run the l2_fwd_rx entry of a MAC and bridge exists exactly when some VLAN insert came while there was no TX entry, and its port is the rx_src_port of the first such insert, cut to eight bits |
| `FdbForwarding.VlanInsertWrites` | ovs-p4rt/sidecar/core/v3/es2k_config_fdb_entry.cc:287-315 | From any store without the TX entry: a VLAN insert leaves an RX entry with rx_src_port; if the port resolves, a TX entry with the resolved port and the SMAC entry; if not, neither; keys and values byte by byte |
| `FdbForwarding.DeleteRemoves` | ovs-p4rt/sidecar/core/v3/es2k_config_fdb_entry.cc:226-333 | Any delete on any store returns OK and removes exactly the TX and SMAC keys and one l2_to_tunnel key: the IPv4 one, or for both families IPv6 the IPv6 one, if the MAC is in the IPv4 table or the request says tunnel, and otherwise the IPv6 one |
| `FdbForwarding.TunnelInsertWrites` | ovs-p4rt/sidecar/core/v3/es2k_config_fdb_entry.cc:262-285 | From any store without the TX entry: a well-formed tunnel insert leaves a TX entry of its type, family and tagging, the l2_to_tunnel entry of its family with the remote address, whole or in four words, and the SMAC entry |
| `FdbForwarding.TxRunShows` | ovs-p4rt/sidecar/core/v3/es2k_config_fdb_entry.cc:319-333 | Every such run leaves l2_fwd_tx showing the learn-once table of its events, keyed by MAC and bridge |
| `FdbTheorems.HomeForwardingLaw` | ovs-p4rt/sidecar/core/v3/es2k_config_fdb_entry.cc:319-333 | With one home bridge per MAC the history may be kept by the MAC alone |
| `FdbTheorems.RunClassified` | ovs-p4rt/sidecar/core/v3/es2k_config_fdb_entry.cc:229-251 | In such a run a TX entry is a tunnel entry exactly when its MAC is in exactly one of the two l2_to_tunnel tables, and otherwise in neither; and for every plain delete at home UpdateFdbTunnelInfo answers "tunnel" exactly when the TX entry is a tunnel entry, with the family of its action and the l2_to_tunnel table that has the MAC |
| `FdbTheorems.DeleteKeepsClassified` | ovs-p4rt/sidecar/core/v3/es2k_config_fdb_entry.cc:229-251 | Starting from the classification by home bridges, a delete of any shape and on any bridge keeps it if and only if, for a MAC in an l2_to_tunnel table, either it picks the present table and names the home bridge, or it does neither |
| `FdbTheorems.TwoBridgesMisclassify` | ovs-p4rt/sidecar/core/v3/es2k_config_fdb_entry.cc:229-285 | One way to break it: learn a MAC over a tunnel on two bridges, delete it on one, and the other keeps a tunnel TX entry that no l2_to_tunnel table knows |
| `FdbClassification.StepKeepsTied` | ovs-p4rt/sidecar/core/v3/es2k_config_fdb_entry.cc:229-333 | Without any assumption on bridges, for every event, well formed or not: the tables stay tied (a MAC is in one l2_to_tunnel table if some bridge has a tunnel TX entry for it, and in none otherwise) if and only if, for a delete of a MAC in such a table, the key it picks is absent exactly when another bridge still has a tunnel TX entry; for a well-formed tunnel insert, TX is present or the other family is absent; for a malformed one, it returns early or its own key is present; a VLAN insert always |
| `FdbClassification.RunKeepsTied` | ovs-p4rt/sidecar/core/v3/es2k_config_fdb_entry.cc:319-333 | A run from empty tables is tied after every event if and only if each event meets that condition in the state it comes to |
| `FdbClassification.DisciplinedRunTied` | ovs-p4rt/sidecar/core/v3/es2k_config_fdb_entry.cc:319-333 | One home bridge per MAC, for its inserts and its plain deletes, is enough for that |
| `FdbClassification.TiedClassifies` | ovs-p4rt/sidecar/core/v3/es2k_config_fdb_entry.cc:229-251 | While the tables are tied a plain delete is taken for a tunnel exactly when some bridge has a tunnel TX entry for its MAC; the answer fits the entry it names exactly if that bridge is among them or none is |
| `FdbClassification.WrongBridgeMisclassifies` | ovs-p4rt/sidecar/core/v3/es2k_config_fdb_entry.cc:229-285 | Learning on one bridge only is not enough: after one tunnel insert, a plain delete naming any other bridge leaves the tunnel TX entry while no l2_to_tunnel table has the MAC |
| `FdbTheorems.RunInStep` | ovs-p4rt/sidecar/core/v3/es2k_config_fdb_entry.cc:262-315 | Over every run of deletes and well-formed inserts from empty tables the (MAC, bridge) keys of l2_fwd_tx and l2_fwd_smac are the same |
| `FdbTheorems.RunReceived` | ovs-p4rt/sidecar/core/v3/es2k_config_fdb_entry.cc:262-315 | Over every run from empty tables, malformed requests included, every VLAN-kind TX key is also an RX key |
| `FdbTheorems.InsertKeepsStep` | ovs-p4rt/sidecar/core/v3/es2k_config_fdb_entry.cc:262-315 | From any store with TX and SMAC in step, an insert keeps them so if and only if it is well formed or finds its TX entry |
| `FdbTheorems.DeleteKeepsStep` | ovs-p4rt/sidecar/core/v3/es2k_config_fdb_entry.cc:262-315 | Any delete, however its ignored writes turn out, keeps TX and SMAC in step |
| `FdbTheorems.StepKeepsReceived` | ovs-p4rt/sidecar/core/v3/es2k_config_fdb_entry.cc:262-333 | Every event, well formed or not, keeps "a VLAN-kind TX key is an RX key" |
| `FdbTheorems.RxOnlyGrows` | ovs-p4rt/sidecar/core/v3/es2k_config_fdb_entry.cc:287-315 | No run, well formed or not, removes or alters an l2_fwd_rx entry: a VLAN delete leaves RX behind |
| `FdbTheorems.RepeatedInsert` | ovs-p4rt/sidecar/core/v3/es2k_config_fdb_entry.cc:262-333 | Repeating any insert, even a failing or malformed one, changes nothing and returns the same status |
| `FdbTheorems.TunnelInsertUndone` | ovs-p4rt/sidecar/core/v3/es2k_config_fdb_entry.cc:262-333 | A tunnel insert that found neither TX nor SMAC entry is undone by the next plain delete (the store is equal again) if and only if no l2_to_tunnel entry that the delete would pick or keep was in the way |
| `FdbTheorems.ReachableTunnelInsertUndone` | ovs-p4rt/sidecar/core/v3/es2k_config_fdb_entry.cc:262-333 | In every state reachable by such a run that condition holds, so the delete restores all five tables |
| `FdbTheorems.VlanInsertLeavesRx` | ovs-p4rt/sidecar/core/v3/es2k_config_fdb_entry.cc:287-315 | A VLAN insert that found neither TX nor SMAC entry, followed by its plain delete, restores everything except the RX entry, which stays, and the l2_to_tunnel entry of that MAC, which the delete removes if there was one (IPv4 first) |
| `FdbTheorems.MalformedInsertShape` | ovs-p4rt/sidecar/core/v3/es2k_config_fdb_entry.cc:114-128 | An insert whose l2_fwd_tx request is malformed still writes l2_to_tunnel and l2_fwd_smac, because the statuses are ignored |
| `FdbTheorems.DeleteShape` | ovs-p4rt/sidecar/core/v3/es2k_config_fdb_entry.cc:262-333 | A delete always returns OK and removes the TX and SMAC keys plus the l2_to_tunnel key that the classification picked, present or not |
| `FdbTheorems.TunnelInsertShape` | ovs-p4rt/sidecar/core/v3/es2k_config_fdb_entry.cc:262-285 | What a well-formed tunnel insert leaves in the five tables: nothing if TX is there, otherwise a new TX entry, while present l2_to_tunnel and SMAC entries keep their old action |
| `FdbTheorems.VlanInsertShape` | ovs-p4rt/sidecar/core/v3/es2k_config_fdb_entry.cc:287-315 | What a VLAN insert leaves: nothing if TX is there; RX alone, with the error status, if tx_acc_vsi does not resolve the port; otherwise RX, TX with the resolved port, and SMAC |
| `FdbTheorems.StepFrame` | ovs-p4rt/sidecar/core/v3/es2k_config_fdb_entry.cc:319-333 | A call touches nothing outside the five keys of its own MAC and bridge, and never an existing RX key |
| `FdbTheorems.VsiFrame` | ovs-p4rt/sidecar/core/v3/es2k_config_fdb_entry.cc:253-260 | No call changes what tx_acc_vsi resolves, so the meaning of an event does not depend on when it comes |
| `FdbTable.ConfigFdbEntry` | ovs-p4rt/sidecar/core/v3/es2k_config_fdb_entry.cc:319-333 | The imperative entry point leaves the store and status of the step function, the caller's struct being copied |
| `FdbTable.ConfigFdbTunnelEntry` | ovs-p4rt/sidecar/core/v3/es2k_config_fdb_entry.cc:262-285 | Read before insert, then three writes whose statuses are ignored |
| `FdbTable.ConfigFdbVlanEntry` | ovs-p4rt/sidecar/core/v3/es2k_config_fdb_entry.cc:287-315 | Read before insert, RX write, port lookup with early return, then two writes whose statuses are ignored |
| `FdbTable.UpdateFdbTunnelInfo` | ovs-p4rt/sidecar/core/v3/es2k_config_fdb_entry.cc:229-251 | Updates the struct in place: IPv4 table first, the IPv6 table only if still not a tunnel, and then both families become IPv6 |
| `FdbTable.UpdateFdbSrcPortInfo` | ovs-p4rt/sidecar/core/v3/es2k_config_fdb_entry.cc:253-260 | Replaces src_port by the resolved port, or returns the lookup error and leaves the struct alone |
| `FdbTable.WriteFdbTunnelTableEntry` | ovs-p4rt/sidecar/core/v3/es2k_config_fdb_entry.cc:114-148 | An unknown tunnel type leaves an insert blank but a delete still names its key |
| `FdbTable.ReadFdbTunnelTableEntry` | ovs-p4rt/sidecar/core/v3/es2k_config_fdb_entry.cc:178-210 | The read has match fields only; an unknown tunnel type leaves it blank |
| `FdbTable.WriteL2TunnelTableEntry` | ovs-p4rt/sidecar/core/v3/es2k_config_fdb_entry.cc:41-72 | Writes the IPv6 table if both families are IPv6, otherwise the IPv4 table |
| `FdbTable.ReadFdbVlanTableEntry` | ovs-p4rt/sidecar/core/v3/es2k_config_fdb_entry.cc:212-224 | Found exactly when the (MAC, bridge) key is in l2_fwd_tx |
| `FdbTable.WriteFdbSmacTableEntry` | ovs-p4rt/sidecar/core/v3/es2k_config_fdb_entry.cc:20-39 | One write of the SMAC entry, and its status |
| `FdbTable.WriteFdbTxVlanTableEntry` | ovs-p4rt/sidecar/core/v3/es2k_config_fdb_entry.cc:74-92 | One write of the VLAN TX entry, and its status |
| `FdbTable.WriteFdbRxVlanTableEntry` | ovs-p4rt/sidecar/core/v3/es2k_config_fdb_entry.cc:94-112 | One insert of the RX entry, and its status |
| `TunnelTheorems.RunByVniAllOrNothing` | ovs-p4rt/sidecar/core/v3/es2k_config_tunnel_entry.cc:218-231 | When a tunnel_info is determined by its VNI mod 2^24, every run of inserts and deletes from empty tables keeps each tunnel all-or-nothing, although the three writes are separate and stop at the first failure |
| `TunnelTheorems.NeverHalfInstalledIffCompatible` | ovs-p4rt/sidecar/core/v3/es2k_config_tunnel_entry.cc:218-231 | For two well-formed tunnels: no run over them leaves one half installed if and only if they share all three keys or none |
| `TunnelTheorems.RunAllOrNothing` | ovs-p4rt/sidecar/core/v3/es2k_config_tunnel_entry.cc:218-231 | Every run over pairwise compatible tunnels, malformed events included, keeps each well-formed tunnel all-or-nothing |
| `TunnelTheorems.SameVniCompatible` | ovs-p4rt/sidecar/core/v3/es2k_config_tunnel_entry.cc:84-198 | For equal VNIs mod 2^24: the two tunnels are compatible exactly when type, family, tagging, remote address and bridge make all three table keys equal or all three different |
| `TunnelTheorems.DifferentVnisCompatible` | ovs-p4rt/sidecar/core/v3/es2k_config_tunnel_entry.cc:84-198 | Different VNIs mod 2^24 never share a key, whatever else they have in common |
| `TunnelHistory.InstalledLaw` | ovs-p4rt/sidecar/core/v3/es2k_config_tunnel_entry.cc:218-231 | Over every run of pairwise compatible tunnels from empty tables: a tunnel's three entries are all there exactly when some insert of it is the first after its last delete, with the actions of that insert, and otherwise all absent |
| `TunnelWritten.InstalledWrites` | ovs-p4rt/sidecar/core/v3/es2k_config_tunnel_entry.cc:218-231 | What is then in the three tables, after every run: the encap and decap tables and actions and the termination action of that insert's type, family and port mode; its addresses, ports and VNI; a tunnel id worth the VNI mod 2^20; and for a pushing decap priority 1, DEI 0 and the port VLAN mod 256 |
| `TunnelWritten.InsertWrites` | ovs-p4rt/sidecar/core/v3/es2k_config_tunnel_entry.cc:218-231 | A successful insert into any store leaves exactly these three entries |
| `TunnelWritten.KeysSay` | ovs-p4rt/sidecar/core/v3/es2k_config_tunnel_entry.cc:84-198 | Which of the eight encap and four decap tables a tunnel uses, by type, family and port mode, and the match fields of all three keys, byte by byte |
| `TunnelWritten.EncapSays` | ovs-p4rt/sidecar/core/v3/es2k_encoders.cc:352-842 | The encap action id by type, family and tagging, and each of its five parameters found by its id |
| `TunnelWritten.DecapSays` | ovs-p4rt/sidecar/core/v3/es2k_encoders.cc:1065-1152 | The decap action by type and port mode: no parameters for NATIVE_TAGGED, otherwise the pushed VLAN tag |
| `TunnelWritten.TermSays` | ovs-p4rt/sidecar/core/v3/es2k_encoders.cc:942-988 | The termination action by type and port mode, with a tunnel id worth the VNI mod 2^20 |
| `TunnelHistory.LastRequestDecides` | ovs-p4rt/sidecar/core/v3/es2k_config_tunnel_entry.cc:218-231 | So the last well-formed request for a tunnel decides whether it is installed |
| `TunnelHistory.ReachableFailure` | ovs-p4rt/sidecar/core/v3/es2k_config_tunnel_entry.cc:218-231 | In every such reachable state a failing call changes nothing |
| `TunnelHistory.FailureChangesNothing` | ovs-p4rt/sidecar/core/v3/es2k_config_tunnel_entry.cc:218-231 | From an arbitrary store: a failing call changes nothing exactly when it is malformed or the encap table refused it |
| `TunnelTheorems.TornByDelete` | ovs-p4rt/sidecar/core/v3/es2k_config_tunnel_entry.cc:218-231 | The failing run when two tunnels share only the encap key: insert one, delete the other |
| `TunnelTheorems.TornByInserts` | ovs-p4rt/sidecar/core/v3/es2k_config_tunnel_entry.cc:218-231 | The failing run when they share only a later key: insert both, delete the first |
| `TunnelTheorems.StepKeepsAllOrNothing` | ovs-p4rt/sidecar/core/v3/es2k_config_tunnel_entry.cc:218-231 | One call on a compatible tunnel, or a malformed one, keeps a tunnel all-or-nothing |
| `TunnelTheorems.InsertThenDelete` | ovs-p4rt/sidecar/core/v3/es2k_config_tunnel_entry.cc:84-198 | A successful insert followed by a delete of the same tunnel_info succeeds and restores the whole store |
| `TunnelTheorems.InsertOutcome` | ovs-p4rt/sidecar/core/v3/es2k_config_tunnel_entry.cc:218-231 | An insert succeeds exactly when none of its three keys is taken, and then installs all three |
| `TunnelTheorems.DeleteOutcome` | ovs-p4rt/sidecar/core/v3/es2k_config_tunnel_entry.cc:218-231 | A delete succeeds exactly when all three keys are there, and then removes exactly these |
| `TunnelTheorems.MalformedChangesNothing` | ovs-p4rt/sidecar/core/v3/es2k_config_tunnel_entry.cc:84-105 | Mixed families or an unknown tunnel type fail on the first write and change nothing |
| `TunnelTheorems.TaggingAgrees` | ovs-p4rt/sidecar/core/v3/es2k_config_tunnel_entry.cc:84-198 | Encap, decap and termination agree on popping and pushing the VLAN tag exactly for NATIVE_TAGGED and NATIVE_UNTAGGED; for every other mode decap pushes a tag that encap never popped and termination does not push |
| `TunnelTable.ConfigTunnelEntry` | ovs-p4rt/sidecar/core/v3/es2k_config_tunnel_entry.cc:218-231 | The three writes with early return leave the store and status of the step function |
| `TunnelTable.PrepareEncapTableEntry` | ovs-p4rt/sidecar/core/v3/es2k_config_tunnel_entry.cc:84-105 | The dispatch on families and tagging fills in the entry of the one of eight tables that the specification names, or nothing |
| `TunnelTable.PrepareV4EncapTableEntry` | ovs-p4rt/sidecar/core/v3/es2k_config_tunnel_entry.cc:23-34 | For any tunnel_info, whatever its families and tagging: the tagged IPv4 table of its tunnel type, or nothing for an unknown type |
| `TunnelTable.PrepareV6EncapTableEntry` | ovs-p4rt/sidecar/core/v3/es2k_config_tunnel_entry.cc:37-50 | For any tunnel_info, whatever its families and tagging: the tagged IPv6 table of its tunnel type, or nothing for an unknown type |
| `TunnelTable.PrepareV4EncapAndVlanPopTableEntry` | ovs-p4rt/sidecar/core/v3/es2k_config_tunnel_entry.cc:53-66 | For any tunnel_info, whatever its families and tagging: the untagged IPv4 table of its tunnel type, or nothing for an unknown type |
| `TunnelTable.PrepareV6EncapAndVlanPopTableEntry` | ovs-p4rt/sidecar/core/v3/es2k_config_tunnel_entry.cc:69-82 | For any tunnel_info, whatever its families and tagging: the untagged IPv6 table of its tunnel type, or nothing for an unknown type |
| `TunnelTable.PrepareDecapTableEntry` | ovs-p4rt/sidecar/core/v3/es2k_config_tunnel_entry.cc:126-166 | NATIVE_TAGGED selects plain decap, every other mode decap with VLAN push |
| `TunnelTable.PrepareTunnelTermTableEntry` | ovs-p4rt/sidecar/core/v3/es2k_config_tunnel_entry.cc:186-198 | Termination by family; mixed families leave the entry blank |
| `VlanTable.RunShows` | ovs-p4rt/sidecar/core/v3/do_config_vlan_entry.cc:47-56 | Over every run from empty tables vlan_push and vlan_pop hold the same set of ids mod 256, the learn-once set of the run |
| `VlanTable.LastRequestDecides` | ovs-p4rt/sidecar/core/v3/do_config_vlan_entry.cc:47-56 | After any run the last request for an id, counted mod 256, decides whether its two entries are there; and vlan_push then pushes that id mod 256 with priority 1 and DEI 0, while vlan_pop has no parameters |
| `VlanTable.ReachableFailure` | ovs-p4rt/sidecar/core/v3/do_config_vlan_entry.cc:47-56 | In every reachable state a call fails only when it changes nothing |
| `VlanTable.FailureChangesNothing` | ovs-p4rt/sidecar/core/v3/do_config_vlan_entry.cc:47-56 | From an arbitrary store: when a call succeeds, and that a failing call changes nothing exactly when the push table refused it |
| `VlanTable.StepShows` | ovs-p4rt/sidecar/core/v3/do_config_vlan_entry.cc:47-56 | One call is one learn or forget of the id mod 256, and succeeds exactly when it has something to do |
| `VlanTable.VlanKeysEqual` | ovs-p4rt/sidecar/core/v3/es2k_encoders.cc:1154-1212 | Two VLAN ids share their entries exactly when they agree mod 256 |
| `VlanTable.ConfigVlanEntry` | ovs-p4rt/sidecar/core/v3/do_config_vlan_entry.cc:47-56 | Two writes with early return leave the store and status of the step function |
| `IpMacTable.SrcMapLaw` | ovs-p4rt/sidecar/core/v3/do_config_ip_mac_map_entry.cc:96-125 | Over any run from empty maps the source map holds for each IP the MAC of the first accepted insert after its last accepted delete, or nothing: its bytes 0-1, 2-3 and 4-5 are the high, middle and low parameter of that entry |
| `IpMacTable.DstMapLaw` | ovs-p4rt/sidecar/core/v3/do_config_ip_mac_map_entry.cc:96-125 | The destination map obeys the same law keyed by destination IP, "accepted" being a valid source address |
| `IpMacTable.RunShows` | ovs-p4rt/sidecar/core/v3/do_config_ip_mac_map_entry.cc:96-125 | Every run leaves the two tables showing two independent learn-once maps |
| `IpMacTable.StepShows` | ovs-p4rt/sidecar/core/v3/do_config_ip_mac_map_entry.cc:96-125 | One call, with its jump, reads and gated writes, is one learn, forget or skip on each map |
| `IpMacTable.InvalidSourceChangesNothing` | ovs-p4rt/sidecar/core/v3/do_config_ip_mac_map_entry.cc:107-124 | A request with an invalid source address changes neither map, whatever its destination |
| `IpMacTable.ValidIpAddrExactly` | ovs-p4rt/sidecar/core/v3/do_config_ip_mac_map_entry.cc:23-26 | On a little-endian host the check rejects exactly 0.0.0.0, 255.255.255.255 and 1.0.0.127 |
| `IpMacTable.ValidIpAddrAsIntended` | ovs-p4rt/sidecar/core/v3/do_config_ip_mac_map_entry.cc:23-26 | It agrees with the intended check, which rejects 127.0.0.1, exactly for the addresses other than these two: 127.0.0.1 passes and 1.0.0.127 is rejected, because INADDR_LOOPBACK is in host order |
| `IpMacTable.WrongSources` | ovs-p4rt/sidecar/core/v3/do_config_ip_mac_map_entry.cc:96-125 | An insert from 127.0.0.1 is stored; one from 1.0.0.127 changes nothing |
| `IpMacTable.IpKeysEqual` | ovs-p4rt/sidecar/core/v3/es2k_encoders.cc:1255-1316 | Two addresses share a map key exactly when they are equal |
| `IpMacTable.ConfigIpMacMapEntry` | ovs-p4rt/sidecar/core/v3/do_config_ip_mac_map_entry.cc:96-125 | The goto-structured two-table update leaves the step's store and always returns OK |
| `IpMacTable.ReadVmSrcTableEntry` | ovs-p4rt/sidecar/core/v3/do_config_ip_mac_map_entry.cc:28-40 | Reads the source key; found exactly when the source map has the address |
| `IpMacTable.ReadVmDstTableEntry` | ovs-p4rt/sidecar/core/v3/do_config_ip_mac_map_entry.cc:42-54 | Reads the destination key; found exactly when the destination map has the address |
| `IpMacTable.WriteSrcIpMacMapTableEntry` | ovs-p4rt/sidecar/core/v3/do_config_ip_mac_map_entry.cc:76-94 | One write of the source entry |
| `IpMacTable.WriteDstIpMacMapTableEntry` | ovs-p4rt/sidecar/core/v3/do_config_ip_mac_map_entry.cc:56-74 | One write of the destination entry |
| `LearnOnce.RunLaw` | ovs-p4rt/sidecar/core/v3/do_config_ip_mac_map_entry.cc:100-124 | The law of a table whose present keys refuse inserts, on every history and without running it: a key is there exactly when some learn of it is the first after its last forget, and holds that value |
| `TxAccVsi.FindPort` | ovs-p4rt/sidecar/core/v3/tx_acc_vsi_table_entry.cc:48-63 | For a response of any shape: the big-endian value mod 2^32 of the first parameter, in entity-then-parameter order, whose id matches; an error exactly when none matches |
| `TxAccVsi.FoldBytes` | ovs-p4rt/sidecar/core/v3/tx_acc_vsi_table_entry.cc:54-59 | The shift-and-or loop over a byte string of any length computes its big-endian value mod 2^32 |
| `TxAccVsi.PortIgnoresLeadingZeros` | ovs-p4rt/sidecar/core/v3/tx_acc_vsi_table_entry.cc:48-61 | Leading zero bytes in any parameter value of any entity, with any parameters and entities around it, do not change the port |
| `TxAccVsi.ParamValueFirst` | ovs-p4rt/sidecar/core/v3/tx_acc_vsi_table_entry.cc:52-60 | The search yields a value exactly when some parameter is the first with the id, and then that one's |
| `TxAccVsi.GetTxAccVsiPort` | ovs-p4rt/sidecar/core/v3/tx_acc_vsi_table_entry.cc:35-64 | Read error, missing parameter, or the port |
| `TxAccVsi.VsiPortReads` | ovs-p4rt/sidecar/core/v3/tx_acc_vsi_table_entry.cc:22-64 | In any store: the entry read is that of VSI (port minus 16) mod 256; without it the read fails, without a Port parameter the lookup fails, and otherwise the port is that parameter's value mod 2^32 |
| `TxAccVsi.ReadTxAccVsiTableEntry` | ovs-p4rt/sidecar/core/v3/tx_acc_vsi_table_entry.cc:22-33 | One read of the VSI key |
| `P4Runtime.Write` | ovs-p4rt/sidecar/session/ovsp4rt_session.cc:172-181 | What one update does to the server's tables: an error changes nothing, a well-formed one leaves its key present exactly for INSERT, and no other key changes |
| `P4Runtime.InsertDeleteCancel` | ovs-p4rt/sidecar/session/ovsp4rt_session.cc:190-215 | An accepted INSERT and the DELETE of its key cancel out |
| `P4Runtime.Client.SendWriteRequest` | ovs-p4rt/sidecar/session/ovsp4rt_session.cc:172-181 | A write reports and does what the table store says |
| `P4Runtime.Client.SendReadRequest` | ovs-p4rt/sidecar/session/ovsp4rt_session.cc:153-170 | A read is answered exactly when its key is present |
| `Encoders.EncapV4Decodes` | ovs-p4rt/sidecar/core/v3/es2k_encoders.cc:363-407 | From an IPv4 encap entry the two addresses, dst_port, the src_port (twice the swapped dst_port mod 2^16) and the VNI mod 2^24 can be read back |
| `Encoders.EncapV6Decodes` | ovs-p4rt/sidecar/core/v3/es2k_encoders.cc:472-530 | The same for IPv6, the addresses exactly |
| `Encoders.V6ActionDecodes` | ovs-p4rt/sidecar/core/v3/es2k_encoders.cc:338-346 | The four 32-bit parameters of set_tunnel_v6 concatenate to the canonical IPv6 address |
| `Encoders.MacActionDecodes` | ovs-p4rt/sidecar/core/v3/es2k_encoders.cc:1273-1300 | The parameters found under the high, middle and low ids are bytes 0-1, 2-3 and 4-5 of the address, and there are no others |
| `Encoders.EncodeEncapTableEntry` | ovs-p4rt/sidecar/core/v3/es2k_encoders.cc:352-842 | The eight encap encoders: key by VNI, five parameters on insert, no action on delete |
| `Encoders.EncodeFdbTunnelTableEntry` | ovs-p4rt/sidecar/core/v3/es2k_encoders.cc:157-288 | The two tunnel encoders of l2_fwd_tx: action by family and tagging, unset for mixed families |
| `Encoders.EncodeFdbTxVlanTableEntry` | ovs-p4rt/sidecar/core/v3/es2k_encoders.cc:72-121 | The VLAN encoder of l2_fwd_tx, port and VLAN pointer cut to eight bits |
| `Encoders.EncodeFdbRxVlanTableEntry` | ovs-p4rt/sidecar/core/v3/es2k_encoders.cc:123-155 | The l2_fwd_rx entry, port cut to eight bits |
| `Encoders.EncodeL2FwdTxTablePrologue` | ovs-p4rt/sidecar/core/v3/es2k_encoders.cc:51-70 | Table and match fields only |
| `Encoders.EncodeFdbSmacTableEntry` | ovs-p4rt/sidecar/core/v3/es2k_encoders.cc:25-49 | The l2_fwd_smac entry |
| `Encoders.EncodeL2ToTunnelV4` | ovs-p4rt/sidecar/core/v3/es2k_encoders.cc:290-318 | The l2_to_tunnel_v4 entry, keyed by MAC alone |
| `Encoders.EncodeL2ToTunnelV6` | ovs-p4rt/sidecar/core/v3/es2k_encoders.cc:320-348 | The l2_to_tunnel_v6 entry: the loop adds the four words in order |
| `Encoders.EncodeDecapModTableEntry` | ovs-p4rt/sidecar/core/v3/es2k_encoders.cc:1366-1402 | The two plain decap encoders |
| `Encoders.EncodeDecapModAndVlanPushTableEntry` | ovs-p4rt/sidecar/core/v3/es2k_encoders.cc:1065-1152 | The two decap-and-push encoders, VLAN id cut to eight bits |
| `Encoders.EncodeTermAction` | ovs-p4rt/sidecar/core/v3/es2k_encoders.cc:942-988 | The termination action by tagging and tunnel type; unset for an unknown type |
| `Encoders.EncodeTunnelTermTableEntry` | ovs-p4rt/sidecar/core/v3/es2k_encoders.cc:916-989 | The IPv4 termination entry, its match fields in the order address, bridge, VNI |
| `Encoders.EncodeV6TunnelTermTableEntry` | ovs-p4rt/sidecar/core/v3/es2k_encoders.cc:991-1062 | The IPv6 termination entry, in the order bridge, address, VNI |
| `Encoders.EncodeVlanPushTableEntry` | ovs-p4rt/sidecar/core/v3/es2k_encoders.cc:1154-1193 | The vlan_push entry |
| `Encoders.EncodeVlanPopTableEntry` | ovs-p4rt/sidecar/core/v3/es2k_encoders.cc:1195-1212 | The vlan_pop entry |
| `Encoders.EncodeSrcIpMacMapTableEntry` | ovs-p4rt/sidecar/core/v3/es2k_encoders.cc:1255-1302 | The source map entry |
| `Encoders.EncodeDstIpMacMapTableEntry` | ovs-p4rt/sidecar/core/v3/es2k_encoders.cc:1304-1351 | The destination map entry |
| `Encoders.EncodeTxAccVsiTableEntry` | ovs-p4rt/sidecar/core/v3/es2k_encoders.cc:1353-1364 | The VSI key: port minus 16 mod 2^32, cut to eight bits |
| `Written.TxVlanActionSays` | ovs-p4rt/sidecar/core/v3/es2k_encoders.cc:72-121 | RemoveVlanAndFwd with port and VLAN exactly for NATIVE_UNTAGGED, otherwise L2Fwd with the port: src_port mod 256, the port VLAN mod 256 |
| `Written.TxTunnelActionSays` | ovs-p4rt/sidecar/core/v3/es2k_encoders.cc:157-288 | For every tunnel type, family and tagging its own one of eight actions, with a tunnel id worth the VNI mod 2^20 |
| `Written.RxActionSays` | ovs-p4rt/sidecar/core/v3/es2k_encoders.cc:123-155 | L2Fwd with rx_src_port mod 256 |
| `Written.V6ActionSays` | ovs-p4rt/sidecar/core/v3/es2k_encoders.cc:320-348 | Each of the four parameters, found by its id, holds its own four bytes of the remote address |
| `Written.VlanParamsSay` | ovs-p4rt/sidecar/core/v3/es2k_encoders.cc:1154-1193 | A pushed tag has priority 1, DEI 0 and the id mod 256 |
| `Written.FdbKeysSay` | ovs-p4rt/sidecar/core/v3/es2k_encoders.cc:25-155 | The keys of the five FDB tables: table, field, MAC and bridge as bytes |
| `Written.TermKeysSay` | ovs-p4rt/sidecar/core/v3/es2k_encoders.cc:916-1062 | The two termination keys: remote address, bridge and the three VNI bytes, in their different orders |
| `Written.IpKeysSay` | ovs-p4rt/sidecar/core/v3/es2k_encoders.cc:1255-1316 | The keys of the two maps are the four address bytes as they stand in memory |
| `Bytes.EncodeByteValue` | ovs-p4rt/sidecar/core/common/ovsp4rt_encode_utils.cc:9-21 | The loop yields the arguments, each cut to eight bits |
| `Bytes.VniDecodes` | ovs-p4rt/sidecar/core/common/ovsp4rt_encode_utils.h:38-40 | The big-endian value of an encoded VNI is the VNI mod 2^24 |
| `Bytes.TunnelIdDecodes` | ovs-p4rt/sidecar/core/common/ovsp4rt_encode_utils.h:32-34 | The big-endian value of an encoded tunnel id is the VNI mod 2^20 |
| `Bytes.VniKeyEqual` | ovs-p4rt/sidecar/core/common/ovsp4rt_encode_utils.h:38-40 | Two VNIs encode alike exactly when they agree mod 2^24 |
| `Bytes.Ipv4Decodes` | ovs-p4rt/sidecar/core/common/ovsp4rt_encode_utils.cc:23-27 | An encoded IPv4 word, read backwards, is the word |
| `Bytes.Ipv4KeyEqual` | ovs-p4rt/sidecar/core/common/ovsp4rt_encode_utils.cc:23-27 | Two IPv4 words encode alike exactly when they are equal |
| `Bytes.MacDecodes` | ovs-p4rt/sidecar/core/common/ovsp4rt_encode_utils.cc:43-46 | A MAC address is encoded exactly |
| `Bytes.Ipv6Decodes` | ovs-p4rt/sidecar/core/common/ovsp4rt_encode_utils.cc:30-40 | An IPv6 address is encoded exactly |
| `Bytes.PortDecodes` | ovs-p4rt/sidecar/core/v3/es2k_encoders.cc:389-399 | The two-byte port idiom decodes to the port |
| `Bytes.DoubledPortMeaning` | ovs-p4rt/sidecar/core/v3/es2k_encoders.cc:384-399 | The encoded src_port decodes to twice the swapped dst_port mod 2^16, and swapped back it equals 2*dst_port exactly when both bytes of dst_port are below 128 |
| `OvsTypes.WordBytesInOrder` | ovs-p4rt/sidecar/core/v3/es2k_encoders.cc:343-344 | A 32-bit word of the address union, read by a little-endian host and encoded, gives back its four bytes in order |
| `Bytes.ByteAtShifts` | ovs-p4rt/sidecar/core/common/ovsp4rt_encode_utils.cc:25-26 | The recursive byte selector used in all encoders is the shift by whole bytes followed by the mask |
| `KeyValueRoundTrip.PairsRoundTrip` | clients/gnmi-ctl/gnmi_ctl_utils.c:67-124 | For every list of pairs whose keys are not empty and free of ":", "=", "(", comma, space, tab, CR and LF, and whose values have balanced parentheses with none of the five separators outside them: joined with ":" and "," and tokenized, they are exactly that list |
| `KeyValueRoundTrip.RoundTrip` | clients/gnmi-ctl/gnmi_ctl_utils.c:67-124 | For every list of well-formed items (bare key, key:value, key=value, key(value), key(x)->y) with any run of comma, space, tab, CR and LF between them, or none behind a closing parenthesis unless the next key begins with "->", printing and then tokenizing to the end yields exactly that list; the characters are named one by one, not through the tokenizer's sets |
| `KeyValueRoundTrip.ParsePrinted` | clients/gnmi-ctl/gnmi_ctl_utils.c:67-124 | The same for the in-place program: after the last call every pointer it handed out still denotes its item in the shared buffer |
| `KeyValue.ParseValue` | clients/gnmi-ctl/gnmi_ctl_utils.c:27-55 | The nested loops return the least position that is the terminator or a delimiter at parenthesis depth zero, never beyond the terminator, and terminate |
| `KeyValue.ScanEndLeast` | clients/gnmi-ctl/gnmi_ctl_utils.c:27-55 | The one-character-at-a-time depth scan has that same meaning |
| `KeyValue.CallCuts` | clients/gnmi-ctl/gnmi_ctl_utils.c:67-124 | A true return moves the cursor forward by at least one, not past the terminator; changes at most two characters, each a delimiter or already NUL; leaves what lies before and the whole remaining suffix unchanged; and its pointers denote the first token |
| `KeyValue.CallEnds` | clients/gnmi-ctl/gnmi_ctl_utils.c:67-77 | A false return leaves the buffer alone and the cursor on the terminator |
| `KeyValue.CutBounds` | clients/gnmi-ctl/gnmi_ctl_utils.c:67-124 | Key, value and next start lie in order inside the string; nothing is found exactly when only separators are left |
| `KeyValue.TokensFrame` | clients/gnmi-ctl/gnmi_ctl_utils.c:67-124 | What lies before the cursor has no influence on later calls |
| `KeyValue.Cursor.ParseKeyValue` | clients/gnmi-ctl/gnmi_ctl_utils.c:67-124 | The in-place method leaves the buffer, cursor and two pointers that the call function names |
| `KeyValue.Cursor.TakeKey` | clients/gnmi-ctl/gnmi_ctl_utils.c:67-84 | Skip separators, cut the key with a terminator, step over its delimiter |
| `KeyValue.Cursor.ValueLength` | clients/gnmi-ctl/gnmi_ctl_utils.c:93-120 | The value ends at a separator, at the closing parenthesis, or behind "(x)->" |
| `KeyValue.DrainKeyValues` | clients/gnmi-ctl/gnmi_ctl.cc:226-249 | Calling until false delivers exactly the tokens, with every earlier string intact |
| `KeyValue.CallDelivers` | clients/gnmi-ctl/gnmi_ctl_utils.c:67-124 | One more call keeps all strings delivered so far and adds the next |
| `KeyValue.Strzcpy` | clients/gnmi-ctl/gnmi_ctl_utils.c:139-145 | At most size - 1 characters are copied, every other byte of the destination up to size is zero, and nothing beyond it changes |
| `GnmiPath.SearchedExtendsConsumed` | clients/gnmi-ctl/gnmi_ctl.cc:139-154 | On every input the anchored list of sgnmi_cli is a prefix of the searched list of gnmi_ctl, which goes on behind what the first consumed |
| `GnmiPath.ParsersAgree` | clients/gnmi-ctl/gnmi_ctl.cc:139-154 | The two parsers agree on an input if and only if what the anchored one leaves over has no "/" followed by a name character; in particular if it leaves nothing |
| `GnmiPath.ParseInvertsPrint` | clients/sgnmi_cli/sgnmi_cli.cc:154-162 | Printing any sequence of well-formed steps and parsing it, with either parser, gives back the sequence |
| `GnmiPath.WholePathsArePrinted` | clients/sgnmi_cli/sgnmi_cli.cc:154-162 | The anchored parser consumes an input whole if and only if it is a printed path |
| `GnmiPath.ConsumedIsPrinted` | clients/sgnmi_cli/sgnmi_cli.cc:154-162 | What it consumes of any input is the printed form of well-formed steps whose elements it returns |
| `GnmiPath.MatchPrintsBack` | clients/sgnmi_cli/sgnmi_cli.cc:144-152 | The inner full match never fails on what the loop passes it, and the element prints back to the matched text |
| `GnmiPath.MatchIsGreedy` | clients/sgnmi_cli/sgnmi_cli.cc:157-158 | The matcher finds a reading of the pattern whenever there is one, and no reading has a longer name or match |
| `GnmiPath.StepMatched` | clients/sgnmi_cli/sgnmi_cli.cc:144-162 | A printed step is matched whole when the end or a "/" follows it |
| `GnmiPath.BuildGnmiPath` | clients/sgnmi_cli/sgnmi_cli.cc:154-162 | The consuming loop appends the anchored list to the path object |
| `GnmiPath.BuildGnmiPathBySearch` | clients/gnmi-ctl/gnmi_ctl.cc:139-154 | The iterator loop appends the searched list to the path object |
| `GnmiPath.Path.AddPathElem` | clients/sgnmi_cli/sgnmi_cli.cc:144-152 | Fills in the last element and leaves the others alone |
| `GnmiSet.SetPrintedLine` | clients/gnmi-ctl/gnmi_ctl.cc:353-397 | The program end to end: a buffer with a printed command line whose first two node tokens are a device and then a name, with anything else around them, makes one request per item behind the name, in order: its path text is /interfaces/virtual-interface[name=...]/config/key, its value "vhost" if the device is "virtual-device" and the item says "link" or "LINK", otherwise the item's own; and that path, as the program's own parser reads it, has the four intended elements if and only if the name is non-empty without "]" and the key has no "/" or "[" |
| `GnmiSet.SetLineRequests` | clients/gnmi-ctl/gnmi_ctl.cc:353-397 | The same on the functions, for any buffer content that starts with the line |
| `GnmiSet.ExtractsExactly` | clients/gnmi-ctl/gnmi_ctl.cc:221-251 | Over every token list: the extraction succeeds if and only if its first two device or name tokens fit, and then the path is their pieces in the order they came, and the rest is what follows |
| `GnmiSet.NodeExactly` | clients/gnmi-ctl/gnmi_ctl.cc:221-251 | Over every token list: the node is the intended one if and only if a device token comes first and a name token second among these |
| `GnmiSet.NameBeforeDevice` | clients/gnmi-ctl/gnmi_ctl.cc:221-251 | A name before the device is accepted and gives a path that is no node's |
| `GnmiSet.RequestPathRead` | clients/gnmi-ctl/gnmi_ctl.cc:128-154 | The parser reads the assembled path as the four intended elements if and only if name and key are plain |
| `GnmiSet.SearchedAreGood` | clients/gnmi-ctl/gnmi_ctl.cc:139-154 | On every input, each element that the searching parser finds is the reading of a well-formed step |
| `GnmiSet.ExtractsNode` | clients/gnmi-ctl/gnmi_ctl.cc:221-251 | With device before name the extraction finds the node path and the device kind and leaves what follows |
| `GnmiSet.RequestsExactly` | clients/gnmi-ctl/gnmi_ctl.cc:376-397 | Over every token list: one request for each token before the first wholly empty one, or for all if there is none; that token silently ends the loop and drops what comes behind it |
| `GnmiSet.LoneDelimiterStops` | clients/gnmi-ctl/gnmi_ctl_utils.c:67-124 | The input that does it: a lone "=" or ":" at the cursor is a wholly empty token, and no request is made from there on |
| `GnmiSet.OneRequestEach` | clients/gnmi-ctl/gnmi_ctl.cc:376-397 | A line of well-formed items has no such token: exactly one request per item, with its key in the path and its value, link becoming vhost on a virtual device |
| `GnmiSet.RequestPathPrinted` | clients/gnmi-ctl/gnmi_ctl.cc:221-278 | The text appended piece by piece is the printed form of the four path steps |
| `GnmiCtl.SetCommand` | clients/gnmi-ctl/gnmi_ctl.cc:353-397 | The command as a whole yields the requests of the token function, or none if the node is refused |
| `GnmiCtl.SetLoop` | clients/gnmi-ctl/gnmi_ctl.cc:376-397 | The loop terminates and issues exactly the requests of the remaining tokens |
| `GnmiCtl.ExtractInterfaceNode` | clients/gnmi-ctl/gnmi_ctl.cc:221-251 | Consumes tokens until two node parts are found; true means failure; the rest stays to be read |
| `GnmiCtl.TraverseParams` | clients/gnmi-ctl/gnmi_ctl.cc:253-278 | Takes one token; a wholly empty token or the end clears the flag |
| `GnmiCtl.NoteKeyValue` | clients/gnmi-ctl/gnmi_ctl.cc:227-247 | What one key and value do to the node path, the count and the vhost flag |
| `GnmiCtl.TakesFirst` | clients/gnmi-ctl/gnmi_ctl_utils.c:67-124 | One tokenizer call is taking the first of the remaining tokens |
| `PerfTest.AddThenDeleteRestores` | clients/p4rt_perf_test/p4rt_perf_simple_l2_demo.cc:43-100 | For any total, an ADD run with any thread count followed by a DEL run with any other, each seen by the server in any order, leaves the server without the run's keys: as it was if and only if none of them was there before, also where keys repeat after wrap-around |
| `PerfTest.RunAllThreads` | clients/p4rt_perf_test/p4rt_perf_main.cc:199-219 | The program: whatever the number of threads from 1 to 8, the requests that all of them assemble from their planned ranges, put one after the other, name the entries of the counters 1 to total once each and in order; the entry of c goes from MAC c to MAC c + 1, out of port 1 if it is added |
| `PerfTest.PerfEntrySays` | clients/p4rt_perf_test/p4rt_perf_simple_l2_demo.cc:11-87 | The entry of any counter, byte by byte: counter as source, counter plus one as destination, each mod 2^48, and port 1 on insert |
| `PerfTest.RunPerfTest` | clients/p4rt_perf_test/p4rt_perf_main.cc:102-106 | One thread assembles the entries of its planned range |
| `PerfTest.ThreadCountIrrelevant` | clients/p4rt_perf_test/p4rt_perf_simple_l2_demo.cc:53-87 | All ranges together make the entries of the counters 1 to total, in order, whatever the number of threads |
| `PerfTest.DistinctUpTo48Bits` | clients/p4rt_perf_test/p4rt_perf_simple_l2_demo.cc:68-82 | The entries of a run have pairwise different keys if and only if there are at most 2^48 |
| `PerfTest.PerfKeyEqual` | clients/p4rt_perf_test/p4rt_perf_simple_l2_demo.cc:68-85 | Two counters name the same key exactly when they agree mod 2^48 |
| `PerfTest.SimpleL2DemoTest` | clients/p4rt_perf_test/p4rt_perf_simple_l2_demo.cc:43-100 | A thread assembles exactly the entries of its range, the counter wrapping at 64 bits, or refuses an invalid operation if it has anything to do |
| `PerfTest.EntryForCounter` | clients/p4rt_perf_test/p4rt_perf_simple_l2_demo.cc:68-85 | One loop round builds the entry of its counter even if the counter wrapped |
| `PerfTest.PrepareSimpleL2DemoTableEntry` | clients/p4rt_perf_test/p4rt_perf_simple_l2_demo.cc:11-41 | Match destination, then source; the action only on insert |
| `PerfTest.MacBytes` | clients/p4rt_perf_test/p4rt_perf_simple_l2_demo.cc:69-82 | The shifts and masks pick the low 48 bits, most significant byte first |
| `PerfTest.MacOfWrapped` | clients/p4rt_perf_test/p4rt_perf_simple_l2_demo.cc:68-76 | A counter that wrapped at 64 bits makes the same MAC address |
| `PerfTest.PopulateThreadInfo` | clients/p4rt_perf_test/p4rt_perf_main.cc:49-67 | For 1 to 8 threads and any 64-bit total, every thread gets its planned range and core, other slots stay, and no product or sum exceeds 64 bits |
| `PerfTest.RangesContiguous` | clients/p4rt_perf_test/p4rt_perf_main.cc:51-67 | The ranges lie end to end from 0 to the total, the remainder with the last |
| `PerfTest.ExactlyOneThread` | clients/p4rt_perf_test/p4rt_perf_main.cc:51-67 | Every entry index belongs to exactly one thread |
| `PerfTest.RangesEndToEnd` | clients/p4rt_perf_test/p4rt_perf_main.cc:51-67 | The whole list of ranges is gapless and ends at the total |

## Left out

- gRPC sessions, stream arbitration, credentials, certificates, flags and device ids: the
  client is the table store. Election ids and write batching are not modelled; a
  multi-update request is its updates one by one.
- v1 and v2 of the core and the DPDK variants: the same logic in earlier or smaller layouts.
- Journal, logging, spies, stubs, JSON dumping, console messages and timing: output only.
- The infrap4d daemon: operating-system calls.
- do_config_src_port_entry.cc, do_config_rx_tunnel_src_entry.cc and
  do_config_tunnel_src_port_entry.cc with their encoders: one write each, nothing that spans operations.
- P4 names, numeric ids and the P4Info lookup: table, field, action and parameter names are
  distinct constructors, and `ModBlobPtr` and `BridgeId` stand for that field in every table.
- Fields that the modelled code never reads: is_vlan, prefix_len, ifindex and port_id. The union
  of tnl_info and vln_info is always tnl_info, which is how the code reads it.
- The sizes of the fixed path buffers in gnmi_ctl.cc and their snprintf and strcpy: inputs
  are taken to fit, and strings are values.
- build_gnmi_set_req's typing of values, the get, del, sub and cap commands, and the flags
  of gnmi_ctl: their default values are constants.
- std::regex exceptions and stack limits, and RE2's UTF-8 decoding: characters are single units.
- Other threads of the performance client: what they do concurrently is any reordering of
  their updates. A request is applied update by update: a refused update changes nothing and does
  not stop the others (continue on error, the default of the P4Runtime Specification for batches).
- Encoders.EncodeEncapTableEntry: one method with table, action and address width as parameters stands
  for eight functions that differ in nothing else; the dispatch that picks them is modelled in full.
- Encoders.EncodeFdbTunnelTableEntry: one method stands for the VXLAN and the GENEVE encoder.
- Encoders.EncodeDecapModTableEntry: one method stands for the VXLAN and the GENEVE encoder.
- Encoders.EncodeDecapModAndVlanPushTableEntry: one method stands for the VXLAN and the GENEVE encoder.
- PerfTest.PopulateThreadInfo: requires 1 to 8 threads; for 0 the program divides by zero, and the
  caller rejects more than 8. The printout and the time_taken field are not modelled.
- GnmiCtl.SetLoop: takes every Set call to succeed; the program stops at the first gRPC error.
