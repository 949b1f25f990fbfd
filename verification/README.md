# NPF in Dafny

A model of the packet filter NPF and proofs about it: the compiler from filter criteria to BPF
byte-code with the interpreter and the validator that receive its output, the flattened ruleset, the
lock-free port map, the connection table with its garbage collector and NAT, the reloading of the
configuration, the TCP state and window tracker, checksum arithmetic and prefix translation, MSS
clamping, and the rate limiter.

`dafny verify dfyconfig.toml` checks the whole project.

## How the code is modelled

Code that works in place keeps that form: the code generator, the rule list, the kernel ruleset, the
G/C lists, the packet headers, the TCP state and the rate limiter are classes; keys, addresses and TCP
options are arrays rewritten in place; loops of the source are loops here, with invariants, and each
such method is proved against a function of its old state or against the property itself.

The three concurrent parts are step systems. One step is one atomic access: a load, a
compare-and-swap, a map operation, a flag or counter update, taking or releasing a lock. Any number of
threads take steps in any order, and the theorems speak of every state of every run.

| modules | what they model |
|---|---|
| `Words` | machine words, powers of two and bitwise AND over integers |
| `BpfMachine`, `BpfOpcodes` | the BPF interpreter; what every opcode means by its fields and by the bits of its operands |
| `BpfValidator`, `BpfComplete` | the one-pass data-flow validator and its soundness; what it accepts, by paths instead of labels |
| `BpfCode`, `BpfMeaning`, `BpfAccept` | the emitted fragments, back-patching, what they mean and that they validate |
| `RuleCompiler`, `RuleCriteria`, `RuleTests`, `RuleMeaning` | the generator object; what criteria and groups mean; what the code tests; that both agree |
| `RuleBuild`, `RuleDriver`, `RuleLimits`, `RuleLists` | whole rules, the calls made for a filter, where the generator falls short, and which lists it compiles rightly |
| `Filters`, `NetMeaning`, `FilterMeaning` | filters as written and the packets they are meant for, by header fields; whole addresses; the programs of filters accept those packets |
| `Ruleset` | nested rules, their flattening with skip-to indexes, the inspection loop |
| `PortWords`, `PortBlocks`, `PortSteps`, `PortSearch`, `PortAlloc` | packed words compared in parallel, level-1 blocks, the lock-free operations, the probe sequence, and the search on top of them |
| `ConnSteps`, `ConnInvariant`, `ConnSafety` | connections, table, reference counts, locks, the G/C worker |
| `ConnKeys`, `NatEntries`, `NatReply` | connection keys, their adjustment, NAT entries, and the way of a reply through NAT in every run |
| `ConfigReload`, `GcIncr` | publishing a configuration under its readers; the incremental collection |
| `TcpWindow`, `TcpNumbers`, `TcpLimits` | serial arithmetic against an unbounded tracker; boundaries as running maxima over what the ends send; how large windows may be |
| `TcpStates`, `TcpReference` | the state machine over runs; the state table against what the two ends have said |
| `Checksum`, `Napt`, `Npt66` | incremental checksums, address and port rewriting, ICMP errors, NPTv6 |
| `Mss`, `MssOptions` | MSS clamping; the scan for areas made of options |
| `RateLimit`, `RateTokens` | the committed access rate limiter; its verdicts from the history of a flow |

## Where the code falls short of the obvious property

Each of these is stated with a failing input and with the exact condition under which the code is right.

- A skip-to index with bit 31 set passes the test of `npf_ruleset_insert` but is masked when it is
  used: the inspection loop advances from every slot on every packet if and only if every supplied
  index is safe (`Ruleset.AdvancesExactly`), and goes forward on one packet if and only if the index of
  every rule that the packet reaches and skips is (`Ruleset.ForwardExactly`). With safe indexes every
  inspection ends; with any indexes one ends if and only if it does within two iterations for each
  rule (`Ruleset.EndsExactly`), and `Ruleset.FlagBitLoopsForever` is one that never does.
- A network written with host bits is compared unmasked with the masked address: "from 10.1.2.3/8"
  refuses every packet, even from 10.1.2.3 (`RuleLimits.HostBitsMissed`). A rule on one network is right
  on every packet if and only if the network has no bits below its mask (`RuleLimits.NetsExactly`).
- Inside a group whose jumps are swapped, a multi-word CIDR acts as a choice between its words, a port
  range never matches, and an ICMP type and code act as a choice between them
  (`RuleLimits.IcmpGroupAccepts`); exactly the criteria of `RuleLimits.SwapsWellExactly` keep their
  meaning. `npfctl_build_code` puts no ICMP criterion into a group, but addresses and ports it does: a
  list of ports is right on every packet if and only if every port of its ranges is also listed by
  itself (`RuleLists.PortListsExactly`), and a network that is not to match if and only if it is one
  jump without host bits (`RuleLists.NotExactly`).
- A TCP flags mask equal to the flags is not emitted, so the whole flags byte is compared: "flags S/S"
  misses packets with SYN and ACK (`RuleLimits.SynAckMissed`). Flags are compared rightly on every
  packet if and only if the mask differs from them or covers the whole byte (`RuleLimits.FlagsExactly`).
- A stateful rule on several protocols tests the TCP flags on packets of all of them: "proto { tcp, udp }"
  misses UDP packets by their data (`RuleLimits.UdpMissed`). Such a rule is right on every packet if and
  only if TCP is its only protocol (`RuleLimits.StatefulExactly`).
- An alternative that first loads the layer 4 offset behind another one that may already have left the
  group leaves later port tests without it (`RuleLimits.LateLoadMisses`). The emitters allow such a
  rule, but `npfctl_build_code` never makes one (`RuleDriver.DriverFits`).
- `fetch_l3` says that the version test is never inserted in the middle of a group and asserts it, but a
  list with a table in front of a network does so (`RuleDriver.TableBeforeNet`); the assertions hold if
  and only if the version is tested in time (`RuleDriver.DriverFits`).
- `npfctl_build_fam` drops a network of length 0 and an interface network of another family from its list, as if
  the list did not name it. With "from { 0.0.0.0/0, 10.0.0.1 }" a packet from 10.0.0.2 is missed
  (`FilterMeaning.DroppedNetwork`), and an interface list that runs empty lets every packet of the family
  through (`FilterMeaning.EmptyInterfaceList`). For every packet of the family the rest of the list decides as
  the whole list if and only if a network of length 0 stands alone and is not negated, or a tested member
  holds as well, and, without such a network, something is left, or the list is empty or negated
  (`FilterMeaning.ListExactly`, `FilterMeaning.SourceListExactly`).
- `npf_portmap_get` covers its range if and only if `min + 1` and the size of the range are coprime
  (`PortSearch.CoversRange`); from 2000 to 4000 it tries one port (`PortSearch.OnePortTried`).
- A packet from port zero that is given a port by NAT is not restored on the way back, because port
  zero means that nothing is to be rewritten (`NatEntries.PortZeroIsNotRestored`,
  `NatEntries.ReplyRestored`).
- `npf_conn_setnat` takes the packet for a forwards one: when NAT is put on a connection by a packet
  of its backwards stream, the reply has the adjusted key if and only if both ends are the same and the
  keys leave the direction out (`NatEntries.BackwardsNatExactly`).
- The TCP boundaries stay in order in every run with scales up to s if and only if the acknowledgement
  window and the scale fit into half the sequence space (`TcpLimits.InOrderExactly`); with the default
  window this holds up to a scale of 13, while the scale is only clamped to 14, and
  `TcpLimits.DefaultRunBreaks` is a handshake and two segments that break them.
- The TCP state table takes a repeated FIN that has been acknowledged for the FIN of the other end, and closes the
  connection when a FIN is repeated after both (`TcpReference.RepeatedFin`): in every run a repeated SYN,
  SYN-ACK or FIN leaves the state alone if and only if it is still open (`TcpReference.RepeatsExactly`), and
  LAST_ACK and TIME_WAIT mean that both ends have closed if and only if no acknowledged FIN was repeated
  (`TcpReference.BothClosedExactly`).
- The mask of `npf_npt66_rwr` takes the low bits of a word where a prefix length counts the leading
  ones. An address of a /60 comes back as another one (`Npt66.SubnetBitsLost`); all addresses that come
  back are the same as before if and only if the length is at most 64 and a multiple of 16, or of 8 when
  words are loaded little-endian (`Npt66.RoundTripsExactly`). `npfctl_npt66_calcadj` sums the same bits,
  and takes the complement on 32 bits: for those lengths a translation is checksum-neutral if and only
  if the folded inner prefix sum is not larger than the outer one, and for no other length is that so
  (`Npt66.NeutralExactly`, with `Npt66.NotNeutral` and `Npt66.NotNeutralWithinWord`).
- An address can go out and be refused on the way back (`Npt66.WayBackRefused`), exactly when its only
  host word that is not zero becomes zero, and never up to 48 bits (`Npt66.RoundTrip`).
- An incrementally updated checksum equals the one computed from scratch exactly when it is all ones for
  words that are all zero and for no others (`Checksum.ScratchExactly`).
- A UDP checksum that comes out as zero is stored as zero, which means that there is none: a packet from
  10.0.0.1 loses its checksum (`Napt.UdpSumLost`). A right UDP checksum is kept if and only if the new
  words do not add up to zero modulo 0xffff, or it was all ones and stays so, because the address of all
  ones is replaced by that of all zeros and no port is (`Napt.Headers.NaptRwr`).
- The ICMPv6 checksum covers the addresses and is not updated under NAT (`Napt.Icmp6SumBreaks`): it stays
  right if and only if the old and the new address add up to the same modulo 0xffff
  (`Napt.Headers.NaptRwr`).
- With several MSS options in one segment all are lowered but the checksum follows the last one only: it
  stays right if and only if what the others add to the sum is zero modulo 0xffff (`Mss.Clamp`,
  `Mss.FixedExactly`, with `Mss.DuplicateOptionBreaks`).

## Model

| member | source | states |
|---|---|---|
| `BpfMachine.Filter` | src/kern/stand/bpf_filter.c:248-623 | the interpreter loop returns the outcome of the run of `Exec` from the start, whose steps `BpfOpcodes.MeaningExact` describes apart from it, and it ends because offsets are unsigned |
| `BpfOpcodes.ExecMeans` | src/kern/stand/bpf_filter.c:284-622 | for every opcode, operand, packet and memory the switch does what the fields of the opcode say: class, size, mode, operation and source, with loads as big-endian numbers, AND, OR, XOR and shifts bit by bit, sums modulo 2^32, and the rest undecoded |
| `BpfOpcodes.MeaningExact` | src/kern/stand/bpf_filter.c:284-622 | and nothing else meets that meaning |
| `BpfOpcodes.ComputesExact` | src/kern/stand/bpf_filter.c:506-592 | the arithmetic operations, by residues, quotients and bits |
| `BpfOpcodes.MshExact` | src/kern/stand/bpf_filter.c:427-444 | the header length: bits 2 to 5 of X are the low half of the byte, the others are 0 |
| `BpfOpcodes.PortProgramExact` | src/kern/stand/bpf_filter.c:248-623 | "ldxb 4*([0]&0xf); ldh [x+2]; jeq #p" accepts exactly the IPv4 packets, with a header of any length, whose destination port is p |
| `BpfComplete.OpcodesExact` | src/kern/stand/bpf_filter.c:284-622 | the interpreter decodes exactly the listed opcodes |
| `BpfComplete.AcceptedExactly` | src/kern/stand/bpf_filter.c:646-851 | a program of decodable opcodes that ends in a return is accepted if and only if its jumps stay inside, its constants are in range and every word it loads is initialised or stored on every path to the load |
| `BpfValidator.Validate` | src/kern/stand/bpf_filter.c:646-851 | the single pass with its `invalid` and `mem` marks accepts exactly the programs that have a consistent labelling of instructions with uninitialised words |
| `BpfValidator.Check` | src/kern/stand/bpf_filter.c:680-835 | the check of one instruction, with 32-bit sums for jump targets, is the one of the labelling |
| `BpfValidator.Propagate` | src/kern/stand/bpf_filter.c:682-835 | marks at jump targets and the dropping of stored words follow the flow of the labelling |
| `BpfValidator.CheckIsMonotone` | src/kern/stand/bpf_filter.c:682-835 | knowing more words to be initialised never makes a check fail |
| `BpfValidator.RejectionIsFinal` | src/kern/stand/bpf_filter.c:682-851 | when the pass rejects an instruction no labelling whatever accepts the program |
| `BpfValidator.ExecStaysSafe` | src/kern/stand/bpf_filter.c:284-622 | one step of an accepted program stays inside it, goes forward, and keeps every word outside the label initialised |
| `BpfValidator.RunStaysSafe` | src/kern/stand/bpf_filter.c:284-622 | so does every run from every reachable instruction |
| `BpfValidator.ValidatorSound` | src/kern/stand/bpf_filter.c:646-851 | on every packet an accepted program keeps its program counter inside, reads scratch memory only in range and initialised, and never divides by zero |
| `BpfCode.GoAppend` | src/npfctl/npf_bpf_comp.c:227-246 | running two fragments after each other is running their concatenation |
| `BpfCode.GroupMeaning` | src/npfctl/npf_bpf_comp.c:329-370 | the patched and swapped jumps of a group leave it exactly where the magic ones meant |
| `BpfCode.CompleteMeaning` | src/npfctl/npf_bpf_comp.c:273-293 | after the final patch falling through returns success and a magic jump returns failure |
| `BpfMeaning.AtomMeaning` | src/npfctl/npf_bpf_comp.c:472-752 | every emitted test, plain or swapped, does on the machine what its evaluation on the packet says, a short packet included |
| `BpfMeaning.ProgramMeaning` | src/npfctl/npf_bpf_comp.c:176-370 | a completed program returns success exactly when its pieces match the packet |
| `BpfAccept.PatchedOnce` | src/npfctl/npf_bpf_comp.c:176-224 | a patch leaves alone every instruction without a magic offset |
| `BpfAccept.GroupPatchedOnce` | src/npfctl/npf_bpf_comp.c:329-370 | in the finished program the code of a group is what its exit produced, jumps included |
| `BpfAccept.CompletedIsAcceptable` | src/npfctl/npf_bpf_comp.c:273-293 | every completed program passes the validator in the context of three initialised words and two coprocessor functions, and no magic offset is left |
| `RuleCompiler.RuleCode.constructor` | src/npfctl/npf_bpf_comp.c:169-173 | an empty rule |
| `RuleCompiler.RuleCode.FixupJumps` | src/npfctl/npf_bpf_comp.c:176-224 | exactly the magic offsets of the range are patched, with the sides swapped on request; fails exactly when the range is too long |
| `RuleCompiler.RuleCode.GroupEnter` | src/npfctl/npf_bpf_comp.c:315-326 | the buffer is the code of the rule with a group opened |
| `RuleCompiler.RuleCode.GroupExit` | src/npfctl/npf_bpf_comp.c:329-370 | the buffer is the code of the rule with the group closed: left alone, or swapped with its failure path |
| `RuleCompiler.RuleCode.FetchLayer3` | src/npfctl/npf_bpf_comp.c:373-444 | the version test and the load of the layer 4 offset are added when needed; mixed address families are the error |
| `RuleCompiler.RuleCode.InsertVersion` | src/npfctl/npf_bpf_comp.c:378-430 | the version test goes in front of a still empty group |
| `RuleCompiler.RuleCode.IpVersionBlock` | src/npfctl/npf_bpf_comp.c:472-475 | the buffer is the code after this criterion |
| `RuleCompiler.RuleCode.ProtoBlock` | src/npfctl/npf_bpf_comp.c:481-493 | the buffer is the code after this criterion, and the protocol counts as checked |
| `RuleCompiler.RuleCode.CidrBlock` | src/npfctl/npf_bpf_comp.c:501-579 | the buffer is the code after this criterion, which `NetMeaning.NetworkOfParts` describes on packets |
| `RuleCompiler.RuleCode.PortsBlock` | src/npfctl/npf_bpf_comp.c:587-634 | the buffer is the code after this criterion |
| `RuleCompiler.RuleCode.TcpFlagsBlock` | src/npfctl/npf_bpf_comp.c:640-688 | the buffer is the code after this criterion |
| `RuleCompiler.RuleCode.IcmpBlock` | src/npfctl/npf_bpf_comp.c:695-729 | the buffer is the code after this criterion |
| `RuleCompiler.RuleCode.TableBlock` | src/npfctl/npf_bpf_comp.c:738-752 | the buffer is the code after this criterion |
| `RuleCompiler.RuleCode.Complete` | src/npfctl/npf_bpf_comp.c:273-293 | both returns are appended and every remaining magic jump reaches the failing one; fails exactly for too long programs |
| `RuleCompiler.CidrCode` | src/npfctl/npf_bpf_comp.c:518-572 | the loop over address words emits one masked comparison for every word the mask covers |
| `RuleTests.CallRun` | src/npfctl/npf_bpf_comp.c:481-752 | outside groups a criterion holds exactly when all its parts do |
| `RuleTests.CallScan` | src/npfctl/npf_bpf_comp.c:176-224 | inside a swapped group the code of a call of one magic jump leaves the group, goes on or gives up exactly as its test says |
| `RuleTests.CloseMeaning` | src/npfctl/npf_bpf_comp.c:329-370 | a closed group is the choice between its tests, or its negation |
| `RuleTests.ProgramTests` | src/npfctl/npf_bpf_comp.c:176-752 | for every rule of good groups and every packet the program returns success exactly when the version and all the tests hold |
| `RuleMeaning.TestsAgree` | src/npfctl/npf_bpf_comp.c:481-752 | along every rule with exact networks and flags the tests hold exactly when the criteria do, whatever the generator's flags are; an address criterion is its leading bits alone |
| `RuleMeaning.CompilerCorrect` | src/npfctl/npf_bpf_comp.c:176-752 | for every rule of good groups, networks without host bits and exact flags, and every packet, the compiled program returns success exactly when all criteria hold, one of every group and none of every inverted group |
| `RuleBuild.CompileCode` | src/npfctl/npf_bpf_comp.c:169-370 | the calls on the generator object give the program of the rule, which passes the validator with nothing left to patch; they fail exactly on a generation error |
| `RuleBuild.CompileRule` | src/npfctl/npf_bpf_comp.c:169-752 | and the program accepts exactly the packets the rule matches |
| `NetMeaning.AddressBits` | src/npfctl/npf_bpf_comp.c:535-571 | comparing the masked words of an address one after the other is comparing the leading bits of the address as one number, for any number of words and any length |
| `NetMeaning.NetVerdict` | src/npfctl/npf_bpf_comp.c:501-579 | on a packet of its version a network criterion says whether the network contains the source, or destination, address of the header |
| `NetMeaning.NetworkExact` | src/npfctl/npf_bpf_comp.c:501-579 | the program of a rule on one network without host bits accepts exactly the packets whose address the network contains |
| `NetMeaning.NetworkOfParts` | src/npfctl/npf_bpf_comp.c:510-533 | for all sources, destinations, networks and masks: on 12 bytes, source, destination and anything (IPv4), or 8 bytes, source, destination and anything (IPv6), a source criterion accepts if and only if the leading bits of the source agree, a destination criterion those of the destination |
| `RuleDriver.NeverLate` | src/npfctl/npf_build.c:302-331 | in a group of protocols, of addresses or of ports the layer 4 offset is never loaded behind a criterion that may have left the group: whether such a group is good depends on the number of jumps of its criteria alone |
| `RuleDriver.DriverFits` | src/npfctl/npf_build.c:265-498 | for every filter the calls of the driver respect the emitters' assertions if and only if the version is tested in time, and their groups are good if and only if no list with swapped jumps holds a criterion of several jumps |
| `RuleDriver.TableBeforeNet` | src/npfctl/npf_bpf_comp.c:397-408 | a table in front of a network, of no particular family, breaks the assertion of `fetch_l3` |
| `RuleDriver.DriverExact` | src/npfctl/npf_build.c:265-478 | the driver's rules are exact if and only if no tested network has host bits, flags given with "proto tcp" are exact, and a stateful rule without flags names no protocol but TCP |
| `FilterMeaning.ProtoPartMeans` | src/npfctl/npf_build.c:333-404 | the protocol part of a rule matches exactly the packets of one of the protocols with its flags, or ICMP type and code |
| `FilterMeaning.PortPartMeans` | src/npfctl/npf_build.c:501-502 | the port parts match exactly the packets whose source port, in bytes 0 and 1 behind the headers, or destination port, in bytes 2 and 3, is in one of the ranges |
| `FilterMeaning.AddressPartMeans` | src/npfctl/npf_build.c:265-331 | an address part matches exactly the packets of the version of its tested networks for which one of the tested members, or none of them, holds |
| `FilterMeaning.ListExactly` | src/npfctl/npf_build.c:265-300 | when the tested members of a list decide as the whole list, for every list and packet |
| `FilterMeaning.SourceListExactly` | src/npfctl/npf_build.c:265-300 | and so exactly when the rule of a filter on a family and source addresses is right on a packet |
| `FilterMeaning.DroppedNetwork` | src/npfctl/npf_build.c:286-295 | "from { 0.0.0.0/0, 10.0.0.1 }" misses every packet from 10.0.0.2 |
| `FilterMeaning.EmptyInterfaceList` | src/npfctl/npf_build.c:269-280 | an IPv6 filter on an interface with one IPv4 network matches every IPv6 packet |
| `FilterMeaning.RuleMeansFilter` | src/npfctl/npf_build.c:434-524 | the rule of a filter matches a packet if and only if the fields of its headers are what the filter asks for: version, protocol with its options, SYN alone for stateful TCP, addresses in or not in the lists, ports in the ranges, and TCP or UDP for ports without a protocol |
| `FilterMeaning.BuildCode` | src/npfctl/npf_build.c:434-524 | for every filter: a configuration or generation error, or a program that passes the validator and, under these conditions, accepts exactly the packets the rule matches, which are those the filter is meant for by the fields of their headers |
| `RuleLimits.SwapsWellExactly` | src/npfctl/npf_bpf_comp.c:176-224 | a criterion keeps its meaning under swapped jumps on every packet if and only if it is one magic jump, without host bits and with exact flags, or an empty port range |
| `RuleLimits.NetsExactly` | src/npfctl/npf_bpf_comp.c:501-579 | the program of a rule on one network is right on every packet if and only if the network has no bits below its mask in any word the mask reaches |
| `RuleLimits.HostBitsMissed` | src/npfctl/npf_bpf_comp.c:535-571 | the program of 10.1.2.3/8 refuses a packet from 10.1.2.3, which matches |
| `RuleLists.PortListsExactly` | src/npfctl/npf_bpf_comp.c:587-634 | the program of a list of two or more ports and ranges is right on every packet if and only if every port of its ranges is also listed by itself |
| `RuleLists.NotExactly` | src/npfctl/npf_bpf_comp.c:329-370 | the program of a network that is not to match is right on every packet if and only if the network is one jump without host bits |
| `RuleLimits.IcmpGroupAccepts` | src/npfctl/npf_build.c:383-387 | the program of "type 8 code 0" in a group accepts a packet of type 8 and code 5 |
| `RuleLimits.FlagsExactly` | src/npfctl/npf_bpf_comp.c:640-688 | the program of a rule on TCP flags is right on every packet if and only if the mask differs from the flags or is 0xff |
| `RuleLimits.SynAckMissed` | src/npfctl/npf_bpf_comp.c:643-682 | the program of "flags S/S" refuses a packet with SYN and ACK, which matches |
| `RuleLimits.StatefulExactly` | src/npfctl/npf_build.c:472-478 | the program of a rule on some protocols with exact TCP flags is right on every packet if and only if all the protocols are TCP |
| `RuleLimits.UdpMissed` | src/npfctl/npf_build.c:472-478 | the program of a stateful rule on TCP and UDP refuses a UDP packet that matches |
| `RuleLimits.LateLoadBuild` | src/npfctl/npf_bpf_comp.c:436-443 | a rule whose second alternative first loads the layer 4 offset compiles, and its group is not a good one |
| `RuleLimits.LateLoadMisses` | src/npfctl/npf_bpf_comp.c:436-443 | every packet that such a rule matches by its first alternative, and whose port is not also at the wrong offset, is refused by its program |
| `Ruleset.RuleList.Process` | src/libnpf/npf.c:172-206 | recursion and marks produce the flattened forest behind what the list held |
| `Ruleset.RuleList.ProcessOne` | src/libnpf/npf.c:172-206 | one rule, its subtree, and the index behind it as its mark |
| `Ruleset.KernelRuleset.Insert` | src/kern/npf_ruleset.c:164-186 | the mark of the new slot is the next slot, or the supplied index when that is ahead and has no flag bit; it is ahead of the slot exactly when the supplied index is safe, and safe indexes keep the whole array going forward |
| `Ruleset.KernelRuleset.Inspect` | src/kern/npf_ruleset.c:839-908 | the loop finds what the recursive reading of the array finds |
| `Ruleset.ReinspectList` | src/kern/npf_ruleset.c:811-831 | over the indexes of a dynamic group: nothing if no rule matches, else the first final match, or the last match if none is final |
| `Ruleset.FlatteningPreservesMeaning` | src/libnpf/npf.c:172-206 | for every forest and packet the loop over the array returns the rule that evaluating the tree returns, and it ends |
| `Ruleset.LoadedMarkIsAhead` | src/kern/npf_ruleset.c:164-186 | exactly the safe supplied indexes are loaded as a mark ahead of their slot |
| `Ruleset.AdvancesExactly` | src/kern/npf_ruleset.c:839-908 | the loop advances from every slot on every packet if and only if all supplied indexes are safe |
| `Ruleset.SafeInspectionEnds` | src/kern/npf_ruleset.c:839-908 | with safe indexes the inspection of every packet ends within one iteration for each rule |
| `Ruleset.ForwardExactly` | src/kern/npf_ruleset.c:839-908 | the inspection of a packet goes forward all the way if and only if the index of every rule that it reaches and skips is safe |
| `Ruleset.EndsExactly` | src/kern/npf_ruleset.c:839-908 | with any indexes the inspection of a packet ends if and only if it does within two iterations for each slot |
| `Ruleset.FlagBitLoopsForever` | src/kern/npf_ruleset.c:164-186 | with a supplied index of 2^31 on its only rule the inspection of a packet it does not match never ends, whatever the number of iterations |
| `Ruleset.AddDynamic` | src/kern/npf_ruleset.c:205-262 | the list of a dynamic group stays ordered by priority, the new rule being first or behind all rules of no lower precedence |
| `PortWords.IsSetExact` | src/kern/npf_portmap.c:158-169 | the parallel comparison finds a value exactly when it is in one of the five slots |
| `PortWords.CaxAdds` | src/kern/npf_portmap.c:175-198 | taking an empty slot returns zero exactly for a full word and otherwise adds exactly one value |
| `PortWords.CaxDrops` | src/kern/npf_portmap.c:175-198 | dropping a value removes exactly that value |
| `PortBlocks.UnpackExact` | src/kern/npf_portmap.c:201-219 | the unpacked ports are the packed ones |
| `PortBlocks.Promote` | src/kern/npf_portmap.c:289-301 | the promotion loop fills a zeroed block with the unpacked ports |
| `PortBlocks.PromotionKeeps` | src/kern/npf_portmap.c:285-301 | a promoted block holds exactly the ports of the packed word |
| `PortSteps.PublishKeepsPorts` | src/kern/npf_portmap.c:303-315 | publishing the block leaves the set of ports unchanged |
| `PortSteps.StepRefines` | src/kern/npf_portmap.c:255-372 | every step of every thread keeps the invariant and is a call, a return, nothing, or one whole operation of an atomic set with the right answer |
| `PortSteps.RunInvariant` | src/kern/npf_portmap.c:255-372 | the invariant holds in every state of every run |
| `PortSteps.HeldExactly` | src/kern/npf_portmap.c:255-372 | in every run a port is held exactly when the last successful call on it was a set |
| `PortSteps.NoPortGivenTwice` | src/kern/npf_portmap.c:255-372 | two successful sets of a port have a successful clear between them |
| `PortSearch.Bezout` | src/kern/npf_portmap.c:454-488 | the greatest common divisor is a combination of both numbers and divides them |
| `PortSearch.ProbesRepeat` | src/kern/npf_portmap.c:473-485 | two probes hit the same port exactly when they are whole periods apart |
| `PortSearch.ProbesExactly` | src/kern/npf_portmap.c:473-485 | a search tries exactly the ports that differ from its start by a multiple of gcd(min + 1, delta) |
| `PortSearch.ProbesDistinct` | src/kern/npf_portmap.c:473-485 | no port is tried twice in one search |
| `PortSearch.Get` | src/kern/npf_portmap.c:454-488 | the search ends after at most delta / gcd tries, all within the range; it fails only when every one of them is refused, and with a coprime step only when every port of the range is |
| `PortAlloc.FailedSearchMeansFull` | src/kern/npf_portmap.c:454-488 | in every run of the port map a failed search on a coprime range found every port of the range held at the attempt on it, unless memory was lacking for that attempt |
| `PortAlloc.FoundPortWasFree` | src/kern/npf_portmap.c:476-480 | the port a search returns was free before its attempt and is held after it |
| `PortSearch.CoversRange` | src/kern/npf_portmap.c:454-488 | a failed search has tried every port of the range if and only if min + 1 and delta are coprime |
| `PortSearch.DefaultsCovered` | src/kern/npf_portmap.c:79-109 | the default ranges and 1 to 65535 are covered |
| `PortSearch.OnePortTried` | src/kern/npf_portmap.c:454-488 | from 2000 to 4000 a single port is tried |
| `ConnInvariant.InsertKeeps` | src/kern/npf_conndb.c:182-201 | inserting an entry, or finding the key taken, keeps the invariant |
| `ConnInvariant.RemoveKeeps` | src/kern/npf_conndb.c:208-218 | removing an entry finds the connection's own and keeps the invariant |
| `ConnInvariant.EstablishKeeps` | src/kern/npf_conn.c:402-503 | every step of establishing, the duplicate-key exits included, keeps the invariant |
| `ConnInvariant.SetNatKeeps` | src/kern/npf_conn.c:538-606 | every step of re-keying for NAT, its races included, keeps the invariant |
| `ConnInvariant.LookupKeeps` | src/kern/npf_conndb.c:143-174 | every step of a lookup keeps the invariant |
| `ConnInvariant.SweepKeeps` | src/kern/npf_conn.c:714-734 | every step of removing an expired connection keeps the invariant |
| `ConnInvariant.DestroyableUnused` | src/kern/npf_conndb.c:413-434 | when the worker sees a reference count of zero after its wait, nobody refers to the connection and no entry leads to it |
| `ConnInvariant.StepKeeps` | src/kern/npf_conndb.c:143-434 | every step of every thread and of the worker keeps the invariant |
| `ConnInvariant.RunInvariant` | src/kern/npf_conndb.c:143-434 | the invariant holds in every state of every run |
| `ConnSafety.NeverFails` | src/kern/npf_conn.c:402-734 | in no run an assertion on removed entries, reference counts or flags fails, or a destroyed connection is used |
| `ConnSafety.TableAgreement` | src/kern/npf_conn.c:466-606 | whenever its lock is free a connection has exactly its two entries under its present keys, or none once removed; there are no stray entries |
| `ConnSafety.ReferencesLive` | src/kern/npf_conn.c:666-676 | the counter is the number of references held, and every reference, pointer just read or lock held is on a live connection |
| `ConnSafety.SafeReclamation` | src/kern/npf_conndb.c:368-434 | a connection is destroyed only when no thread refers to it, its lock is free and no reader can find it |
| `ConfigReload.StepKeeps` | src/kern/npf_conf.c:112-170 | every step of readers, which read the configuration anew in every accessor, and of loaders keeps the invariant |
| `ConfigReload.OldConfigUnused` | src/kern/npf_conf.c:112-218 | no reader ever uses a destroyed configuration, and none holds one it has read in its section at the moment it is destroyed |
| `GcIncr.ConnLists.constructor` | src/kern/npf_conndb.c:113-125 | empty lists and no marker |
| `GcIncr.ConnLists.GetNext` | src/kern/npf_conndb.c:268-275 | the successor is on the list, and the circular order from it is the one from the connection with that connection moved to its end |
| `GcIncr.ConnLists.MoveToGc` | src/kern/npf_conndb.c:311-316 | exactly that connection leaves the list, and the circular order from its successor is the old one without it |
| `GcIncr.ConnLists.Inspect` | src/kern/npf_conndb.c:305-337 | one turn of the scan moves exactly an expired connection and keeps the circular order, the marker staying on the first connection kept |
| `GcIncr.ConnLists.Collect` | src/kern/npf_conndb.c:281-340 | one call inspects the first connections of the circular order, at most step of them and none twice; the expired ones are moved and counted, the survivors go to the end of the order; the marker stays null or on the list |
| `GcIncr.AllInspected` | src/kern/npf_conndb.c:281-340 | without additions all n connections are inspected within n / step calls, rounded up |
| `ConnKeys.SetKey` | src/kern/npf_connkey.c:63-93 | the words of a key, the ends inverted for the backwards stream |
| `ConnKeys.SetCkey` | src/kern/npf_connkey.c:122-141 | interface and direction or-ed into the first word |
| `ConnKeys.ConKey` | src/kern/npf_connkey.c:204-263 | the key of a packet with ports |
| `ConnKeys.AdjKey` | src/kern/npf_connkey.c:158-175 | one address, and one port unless the new one is zero, overwritten in place |
| `ConnKeys.KeyInjective` | src/kern/npf_connkey.c:63-141 | a key determines the addresses, ports and protocol, and the interface and direction it includes |
| `ConnKeys.KeyWords` | src/kern/npf_connkey.c:162-163 | a key records the length of its addresses |
| `ConnKeys.AdjustedIsKey` | src/kern/npf_connkey.c:158-175 | the adjusted key is the key of the rewritten tuple |
| `NatEntries.CreatedEntry` | src/kern/npf_nat.c:453-555 | what is made from a packet with the forwards key of a connection belongs to that connection |
| `NatEntries.BackKeyOfReply` | src/kern/npf_conn.c:538-606 | the backwards key after NAT is the key of the reply to the translated packet, on the interface and in the direction of the policy |
| `NatEntries.ReplyRestored` | src/kern/npf_nat.c:453-591 | the reply is rewritten to the exact mirror of the original if and only if the original port is not lost |
| `NatEntries.EndsRewritten` | src/kern/npf_nat.c:351-380 | outbound NAT shows the translation address as the source of a packet and takes it as the destination of the reply, inbound NAT the other way round, and the other end is left alone on the whole way |
| `NatEntries.PortZeroIsNotRestored` | src/kern/npf_nat.c:560-591 | a packet from port zero that is not restored |
| `NatEntries.BackwardsNatExactly` | src/kern/npf_conn.c:538-606 | for an entry made from a backwards packet the adjusted key is that of the reply if and only if both ends are the same and the keys leave the direction out |
| `NatReply.SetNatKeys` | src/kern/npf_conn.c:538-606 | every step of re-keying keeps the keys of all connections made from their packets and entries |
| `NatReply.RunKeys` | src/kern/npf_conn.c:402-606 | in every run the forwards key is that of the first packet, and the backwards key is its mirror or, once translated, the mirror adjusted by the entry |
| `NatReply.ReplyFindsConnection` | src/kern/npf_nat.c:654-677 | in every run, whenever a translated connection is unlocked and not removed, the reply to its translated packet finds it through its backwards entry and only that reply does, passes the check of a live connection, is backwards traffic for the policy, and is rewritten to the exact mirror of the original if and only if no port was lost |
| `TcpWindow.PlacedSame` | src/kern/npf_state_tcp.c:66-69 | numbers placed near the boundaries differ from the segment's by multiples of 2^32 |
| `TcpWindow.SerialDifference` | src/kern/npf_state_tcp.c:66-69 | a serial difference within half the space is the difference of the unbounded numbers |
| `TcpWindow.SenderRefines` | src/kern/npf_state_tcp.c:408-424 | after an accepted segment the sender's side represents the running maximum of SEQ + LEN |
| `TcpWindow.ReceiverRefines` | src/kern/npf_state_tcp.c:408-428 | and the receiver's side those of ACK and of ACK + WIN |
| `TcpWindow.TrackRefines` | src/kern/npf_state_tcp.c:271-430 | every segment after the first, accepted or not, keeps 0 <= maxend - end <= 65535 * 2^s and maxwin >= 1 on both sides, and they represent the unbounded tracker |
| `TcpWindow.BoundsAdvance` | src/kern/npf_state_tcp.c:382-428 | a segment is accepted exactly when the four boundaries hold over the integers, and no boundary moves backwards |
| `TcpWindow.FirstPacketOk` | src/kern/npf_state_tcp.c:315-343 | the first packet puts both sides in order |
| `TcpWindow.DefaultScale` | src/kern/npf_state_tcp.c:553-561 | with the default window they fit for scales up to 13 but not for 14 |
| `TcpStates.CaseNumberExact` | src/kern/npf_state_tcp.c:83-111 | the packed table gives the case of SYN, FIN and ACK for all flags |
| `TcpNumbers.SegmentExact` | src/kern/npf_state_tcp.c:302-429 | a segment near the boundaries is accepted if and only if SEQ + LEN, counting SYN and FIN, SEQ and ACK keep the four boundaries, and then these are the maxima of what they were and of SEQ + LEN, ACK, ACK + WIN and WIN, in unbounded numbers |
| `TcpNumbers.RunningMaxima` | src/kern/npf_state_tcp.c:271-430 | in every run, from any turn on, both sides are the running maxima over the fields of what the two ends sent |
| `TcpNumbers.ScaleTaken` | src/kern/npf_state_tcp.c:333-359 | the window scale of a side is the option of the segment that sets it, at most 14, and 0 when a later one without SYN sets it |
| `TcpNumbers.ScalesClamped` | src/kern/npf_inet.c:304-311 | in every run, whatever the options say, no scale is above 14 |
| `TcpStates.TcpState.constructor` | src/kern/npf_state.c:122-131 | the untouched state |
| `TcpStates.TcpState.InWindow` | src/kern/npf_state_tcp.c:271-430 | the sides updated in place are those of the tracker |
| `TcpStates.TcpState.Check` | src/kern/npf_state_tcp.c:361-406 | the checks pass exactly when a reset is in order and the boundaries hold |
| `TcpStates.TcpState.Note` | src/kern/npf_state_tcp.c:408-429 | the updates of an accepted segment |
| `TcpStates.TcpState.Inspect` | src/kern/npf_state_tcp.c:437-466 | the state changes exactly when the segment is accepted and the table says so; `TcpReference.StateIsHistory` says what the table means |
| `TcpReference.TableExact` | src/kern/npf_state_tcp.c:123-264 | for whatever the two ends have said, the table leads to the state that stands for it after a segment that may come next, and to CLOSED after any other |
| `TcpReference.StateIsHistory` | src/kern/npf_state_tcp.c:123-264 | in every run the state is the one that stands for what the ends have said since the connection was opened |
| `TcpReference.ClosesExactly` | src/kern/npf_state_tcp.c:446-466 | in every run a connection goes to CLOSED if and only if a reset is accepted and it is not over, or a segment is accepted that may not come next |
| `TcpReference.ResetOfSyn` | src/kern/npf_state_tcp.c:361-380 | in every run with scales that fit, a reset of the first SYN with SEQ 0 and nothing acknowledged is accepted and closes the connection |
| `TcpReference.RepeatsExactly` | src/kern/npf_state_tcp.c:123-264 | in every run accepted ACKs leave ESTABLISHED, CLOSE_WAIT and FIN_WAIT alone, and a repeated SYN, SYN-ACK or FIN leaves its state alone if and only if it is still open |
| `TcpReference.BothClosedExactly` | src/kern/npf_state_tcp.c:212-264 | in every run LAST_ACK and TIME_WAIT mean that both ends have sent a FIN if and only if no acknowledged FIN was repeated |
| `TcpReference.RepeatedFin` | src/kern/npf_state_tcp.c:212-264 | a repeated FIN leads to LAST_ACK when it was acknowledged, and to CLOSED when both have closed |
| `TcpStates.StateInRange` | src/kern/npf_state_tcp.c:123-264 | in every run the state is one of the twelve |
| `TcpStates.ChangesGoUp` | src/kern/npf_state_tcp.c:123-264 | every change goes up, except to CLOSED and when TIME_WAIT is re-opened |
| `TcpStates.EstablishedSawSynAck` | src/kern/npf_state_tcp.c:123-264 | in every run ESTABLISHED implies an accepted SYN-ACK since SYN_SENT was last entered |
| `TcpStates.TimeWaitSawTwoFins` | src/kern/npf_state_tcp.c:123-264 | in every run TIME_WAIT implies two accepted FIN segments since then |
| `TcpStates.StatesTellHistory` | src/kern/npf_state_tcp.c:123-264 | in every run the closing states tell who has sent a FIN and who has acknowledged it since SYN_SENT was last entered |
| `TcpStates.OrderlyPaths` | src/kern/npf_state_tcp.c:123-264 | both handshakes lead to ESTABLISHED, and closing from either side or from both at once leads to TIME_WAIT |
| `TcpStates.ResetKeepsTimeWait` | src/kern/npf_state_tcp.c:446-454 | a reset never leaves TIME_WAIT |
| `TcpStates.StrictReset` | src/kern/npf_state_tcp.c:369-380 | with strict order an accepted later reset has SEQ nst_end or nst_end - 1, unless it answers the first SYN with zero |
| `TcpStates.WindowsInRun` | src/kern/npf_state_tcp.c:271-466 | in every run with scales that fit, from the first packet on, both sides stay in order and represent the unbounded tracker |
| `TcpStates.BoundariesAdvance` | src/kern/npf_state_tcp.c:345-429 | over a run no boundary moves backwards except when a side whose nst_end is zero is set anew |
| `TcpLimits.InOrderExactly` | src/kern/npf_state_tcp.c:271-466 | both sides stay in order in every run with scales up to s if and only if the acknowledgement window and the scale fit into half the sequence space, whenever the shifted window is a 32-bit int |
| `TcpLimits.DefaultWindow` | src/kern/npf_state_tcp.c:553-561 | with the default window they do for scales up to 13 but not up to 14 |
| `TcpLimits.DefaultRunBreaks` | src/kern/npf_state_tcp.c:382-428 | at scale 14 an acknowledgement far behind with a closed window is accepted and puts the other side out of order |
| `Checksum.FoldTwice` | src/kern/npf_inet.c:46-80 | two foldings are complete for the sums that occur |
| `Checksum.Fixup16Exact` | src/kern/npf_inet.c:46-62 | the updated checksum verifies for the new data exactly when the old one did for the old data |
| `Checksum.Fixup32Exact` | src/kern/npf_inet.c:65-80 | the same for a 32-bit word |
| `Checksum.ScratchExactly` | src/kern/npf_inet.c:46-80 | a checksum that verifies is the one computed from scratch exactly when it is all ones for words that are all zero and for no others |
| `Checksum.OnesStay32` | src/kern/npf_inet.c:65-80 | an updated checksum is all ones exactly when it was and the word of all ones is replaced by zero |
| `Checksum.FromScratchVerifies` | src/kern/npf_inet.c:40-80 | a checksum computed from scratch verifies |
| `Checksum.AddrCksum` | src/kern/npf_inet.c:86-99 | the loop over the words of two addresses brings the checksum up to date for any data that held the old one, and gives all ones exactly from all ones when all ones are replaced by zeros |
| `Napt.Headers.RwrCksum` | src/kern/npf_inet.c:710-774 | both checksums are brought up to date, a zero UDP checksum and IPv6 left alone |
| `Napt.Headers.NaptRwr` | src/kern/npf_inet.c:780-818 | the address and the port are rewritten; each updated checksum is right exactly when it was before, and a right one is that computed from scratch exactly when it is all ones for words that are all zero and for no others; a right UDP checksum is lost exactly when it becomes zero; an ICMPv6 checksum stays right exactly when the addresses add up to the same |
| `Napt.UdpSumLost` | src/kern/npf_inet.c:768-773 | a UDP packet with a right checksum that goes out without one |
| `Napt.Icmp6SumBreaks` | src/kern/npf_inet.c:759-763 | an ICMPv6 checksum that becomes wrong |
| `Napt.IcmpError.constructor` | src/kern/npf_alg_icmp.c:298-327 | an ICMP error around a packet |
| `Napt.IcmpError.Translate` | src/kern/npf_alg_icmp.c:371-417 | the chained fixups make the outer checksum right exactly when it was before, for embedded TCP and UDP; around embedded ICMP a port would be counted though none is rewritten |
| `Napt.IcmpError.TranslateByEntry` | src/kern/npf_alg_icmp.c:298-417 | with the entry of the embedded packet's connection the outer checksum is right exactly when it was before, for all three protocols |
| `Npt66.Rewrite` | src/kern/npf_inet.c:824-890 | the loops refuse exactly the addresses that cannot be translated and otherwise replace the prefix bits and adjust one word |
| `Npt66.Neutral` | src/kern/npf_inet.c:824-890 | the one's complement sum of the address is kept exactly when the adjustment makes up for the difference of the prefixes |
| `Npt66.RoundTrip` | src/kern/npf_inet.c:824-890 | for prefixes up to 64 bits whose mask selects the leading bits: out with an adjustment and in with its complement gives back the address, or refuses it exactly when its host part became zero, which cannot happen up to 48 bits |
| `Npt66.RoundTripsExactly` | src/kern/npf_inet.c:860-888 | for every length up to 128 and both byte orders: every address of every prefix that goes out and comes back is the same if and only if the length is at most 64 and a multiple of 16, or of 8 little-endian |
| `Npt66.WayBackRefused` | src/kern/npf_inet.c:845-852 | an address that goes out and is refused on the way back |
| `Npt66.SubnetBitsLost` | src/kern/npf_inet.c:869-875 | an address of a /60 that comes back as another one |
| `Npt66.SumPrefix` | src/npfctl/npf_data.c:681-705 | the summing and folding loops give the folded sum of the prefix bits |
| `Npt66.CalcAdj` | src/npfctl/npf_data.c:673-713 | the adjustment with its 32-bit complement |
| `Npt66.AdjustmentExact` | src/npfctl/npf_data.c:707-712 | it is the one's complement difference exactly when the inner sum is not larger than the outer one, and one less otherwise |
| `Npt66.NeutralForGoodLen` | src/npfctl/npf_data.c:673-713 | where the mask selects the leading bits, the translation of every address keeps its sum if and only if the folded inner prefix sum is not larger than the outer one |
| `Npt66.NeutralExactly` | src/npfctl/npf_data.c:673-713 | that holds of all addresses and prefixes of a length if and only if the mask selects the leading bits for it |
| `Npt66.NotNeutral` | src/npfctl/npf_data.c:707-712 | an address of 2::/16 whose sum changes on the way to 1::/16 |
| `Npt66.NotNeutralWithinWord` | src/kern/npf_inet.c:869-875 | an address of a /60 whose sum changes though the inner prefix sum is the smaller one |
| `Mss.Fetch` | src/kern/npf_inet.c:255-323 | the scan ends and returns the value of the last MSS option |
| `MssOptions.ScanFinds` | src/kern/npf_inet.c:255-323 | in every area made of options and an end, at any offset, the scan finds exactly the MSS options where they are, past fillers and other options, and the value of the last one |
| `MssOptions.ValueOfOptions` | src/kern/npf_inet.c:255-323 | the value fetched is that of the last MSS option among the options, or zero |
| `MssOptions.EveryArea` | src/kern/npf_inet.c:255-323 | every option area is made of options and an end: its own end, an end-of-list option or a bad length |
| `Mss.SetOne` | src/kern/npf_inet.c:373-387 | two bytes are rewritten; the unaligned case reads no byte behind the options |
| `Mss.SetMss` | src/kern/npf_inet.c:329-399 | exactly the MSS options the other scan finds are rewritten, and the report is that of the last one |
| `Mss.ByteBehind` | src/kern/npf_inet.c:376-382 | an unaligned option has a byte behind it because the options end on a four-byte boundary |
| `Mss.SameOffsets` | src/kern/npf_inet.c:255-399 | scan and rewrite agree on the positions of the options |
| `Mss.ReportUpdates` | src/kern/npf_ext_normalize.c:172-183 | both alignment cases bring the TCP checksum up to date |
| `Mss.Clamp` | src/kern/npf_ext_normalize.c:146-183 | when the last MSS option is above the maximum all of them become the maximum and no other byte changes; a right checksum stays right if and only if the changes of all but the last, by the weights of their bytes, add up to zero modulo 0xffff |
| `Mss.FixedExactly` | src/kern/npf_ext_normalize.c:172-183 | for every option area and both alignments of its last MSS option the updated checksum is right under exactly that condition |
| `Mss.DuplicateOptionBreaks` | src/kern/npf_ext_normalize.c:172-183 | a segment with two MSS options whose right checksum becomes wrong |
| `RateLimit.Limiter.constructor` | src/kern/npf_ext_ratelimit.c:73-114 | zero counters |
| `RateLimit.Limiter.Limit` | src/kern/npf_ext_ratelimit.c:132-206 | without overflow the 64-bit arithmetic is the step over integers, whose verdicts `RateTokens.PassesExactly` describes from the history |
| `RateLimit.StepKeeps` | src/kern/npf_ext_ratelimit.c:132-206 | the counters stay within the bursts and what passes is paid for with tokens |
| `RateLimit.CountersInRun` | src/kern/npf_ext_ratelimit.c:132-206 | -ebs <= tc <= cbs and compounded <= ebs in every run |
| `RateLimit.CompoundedIsSum` | src/kern/npf_ext_ratelimit.c:155-206 | in every run the compounded debt is the sum of all actual debts since the last drop |
| `RateLimit.RateBound` | src/kern/npf_ext_ratelimit.c:132-206 | between any two points of any run at most cbs + ebs + cir_tok * (advance of tslast) bytes pass |
| `RateTokens.TokensExact` | src/kern/npf_ext_ratelimit.c:139-152 | in every run the refilled counter is the least of what the rate earned since the start, and since any packet on a full bucket, less the bytes that passed |
| `RateTokens.PassesExactly` | src/kern/npf_ext_ratelimit.c:132-206 | in every run a packet passes if and only if these tokens cover it, or the extended burst covers its debt and the debts since the last drop |
| `RateTokens.NothingLost` | src/kern/npf_ext_ratelimit.c:132-206 | a flow that over no interval offers more than one normal burst and what the rate earns, and from the start no more than it earns, loses no packet |
| `RateTokens.NothingLostExactly` | src/kern/npf_ext_ratelimit.c:132-206 | without an extended burst these are the only flows that lose none |

## Left out

- The router application, drivers, the control tool's parser and listings, and the transfer of configurations: input, output and user interface.
- Foreign libraries: the concurrent map is an atomic map, the reclamation library is its contract (wait for the readers inside at the start), the JIT compiler is ignored.
- Hardware memory ordering: atomic steps are sequentially consistent.
- Saving and restoring connections and NAT entries.
- The override of connection keys and the PPTP gateway that uses it.
- Reading filters: rules start from the parsed filter, and a configuration error is a result here.
- Filling the packet cache: packets come with their version, protocol and layer 4 offset, and the addresses of an IP packet lie inside it, as `npf_cache_ip` makes sure.
- Block marks that the generator records for listing rules.
- Flushing the port map, collection with `flush`, and exchanging the connection database as a whole: these rely on the caller having stopped everything.
- The map from addresses to port bitmaps and `npf_portmap_take` and `npf_portmap_put`: one bitmap is modelled; take and put add a range check.
- The choice of translation addresses from tables and NETMAP.
- Identifiers of dynamic rules, rule procedures, statistics, logging, tables, timeouts, worker threads.
- IPv4 reassembly and IPv4 header normalisation.
- BPF shifts by 32 or more are undefined in C: the machine takes an arbitrary result for them.
- RuleMeaning.CompilerCorrect: groups are restricted to good ones and networks and flags to exact ones, since others do not keep their meaning; `RuleLimits` says exactly which criteria do, and `RuleDriver` which filters.
- RuleBuild.CompileRule: groups are not nested and table identifiers are below 2^31, as the generator asserts.
- FilterMeaning.BuildCode: a filter whose version is not tested in time makes the tool stop at an assertion.
- FilterMeaning.RuleMeansFilter: lists from which a network is dropped where it matters are excluded; `FilterMeaning.ListExactly` says on which packets those go wrong.
- TcpNumbers.SegmentExact: for segments other than resets, within half the sequence space of the boundaries; `TcpStates.StrictReset` is about resets.
- RuleDriver.DriverFits: the condition on lists is exact for the goodness of groups; for the meaning of whole lists `RuleLists` is exact for ports and for one inverted network, and a list of several networks may be right by luck.
- Ruleset.FlatteningPreservesMeaning: for fewer than 2^31 rules, since bit 31 of a mark is a flag.
- PortSearch.Get: the outcome of each attempt is a parameter; `PortAlloc` ties it to the runs of the port map.
- PortAlloc.FailedSearchMeansFull: a search without memory for an attempt may fail with free ports, as the code does.
- ConnSafety.SafeReclamation: connections have fresh identities, and the worker may judge any connection on its list expired and destroy any unreferenced one in any order, which includes what the code does; the order of the lists is that of `GcIncr`.
- NatReply.ReplyFindsConnection: the packet that puts NAT on a connection is a forwards packet of it, on any interface and in any direction that the keys leave open; `NatEntries.BackwardsNatExactly` is about the others. The type of the policy is the direction of that packet, as NAT rules are built.
- TcpLimits.InOrderExactly: shifts of the acknowledgement window that overflow an int are undefined in C and not described.
- TcpStates.WindowsInRun: the scales of the run have to fit, which is the exact condition of `TcpLimits.InOrderExactly`.
- Npt66.RoundTrip: lengths for which the mask is wrong or that reach into the host part are excluded; `Npt66.RoundTripsExactly` shows that all of them fail.
- Npt66.NeutralExactly: for lengths below 128, since `npfctl_npt66_calcadj` reads behind the address for 128.
- Mss.Clamp: checksums that the hardware completes later are not modelled.
- RateLimit.Limiter.Limit: calls whose 64-bit arithmetic overflows are not described.
