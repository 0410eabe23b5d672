# bpfilter: verified model

bpfilter turns packet-filtering chains (ordered rules, each a conjunction of matchers, and a policy) into BPF
programs, attaches them to kernel hooks, and keeps a registry of them that front-ends query and change. This project
models its hardest parts in Dafny and proves what they promise.

**The compiler.** `Codegen` gives the instructions that every matcher, stub, hook and rule emits. `Emitter`, `Swich`,
`Matchers`, `Stubs`, `Generate` and `Loading` are the imperative generator: an image in a growing array, a list of
fixups that is walked while entries are deleted from it or added to it, jumps patched at the end of their scope, a
switch generator with two rounds of back-patching. `Loading.Build` proves that it produces exactly the image the
theorems are about. `Machine` and `Vm` are the BPF machine (registers, stack frames, one call level, maps and dynamic
pointers as contracts); `Spec` is the simple meaning of a chain: parse the packet, take the first matching rule that
decides, else the policy, else accept when parsing fails. `Compiler.CompilerCorrect` proves, for every chain, hook and
packet, that the machine running the image computes that meaning; `Premises` shows chains that meet its premises.
`Packets` and `Delivery` say the same without any of the generator's own definitions: from the named fields of a packet
(addresses, ports, flags, protocol, interface), through first match, to the kernel passing or dropping it.
`Acceptance` says which chains become programs. `ControlFlow`, `Counters`, `Documented`, `Promises` and `Edges` add
control-flow safety, counter exactness over whole runs, and the exact conditions under which the generated code does
what the documentation says.

**The stateful parts.** `Marsh`, `Codec`, `ChainCodec`, `Serializer` (the nested length-prefixed format and its round
trips), `Iptables`, `IptTable`, `IptGenerate`, `IptRoundTrip` (the iptables table as bytes, both ways), `LinkedList`,
`Printer`, `Context` (the registry refines a map), `Enforcement` (registry and compiler together: what is installed
after any requests decides packets as its chain says), `Registry` (which request's chain is found for which hook and
options), `Netfilter` (program replacement as a protocol over kernel links). `WireFormat` and `IptEntries` fix the
formats byte by byte: numbers, widths and offsets are written out there, not taken from the readers and writers.

How the compiler proof goes: a fragment of emitted code has a meaning of its own (`Fragment.Exec`), with jumps to the
next rule and calls still symbolic. Each matcher, stub and rule is simulated at that level (`MatcherProofs`,
`SetProofs`, `RuleProofs`, `PrologueProofs`, `ParserProofs`, `HeaderProofs`); linking next-rule jumps preserves it
(`RuleProofs.LinkNextExec`); and the small-step machine on the linked image refines it (`Linker`).

Where code and documentation disagree, the model follows the code, and a lemma gives the exact condition for agreement:

- port ranges are compared on byte-swapped values (`Documented.RangeExactIff`, `Edges.RangeEdge`);
- interface indices are compared on 16 bits (`Documented.IfindexExactIff`, `Edges.IfindexEdge`);
- port 0 stands for "no L4 header" in `meta.sport` and `meta.dport` (`Documented.PortExactIff`, `Edges.PortZeroEdge`);
- the IPv6 mask is skipped when its last byte is 0xff (`Documented.Ip6EqExactIff`, `Edges.MaskEdge`);
- the (address, port) set switch lists TCP twice and UDP never (`Documented.SetIp6PortExactIff`, `Edges.UdpSetEdge`);
- set lookups always use set 0 (`Documented.ExactIff`, `Edges.SecondSetEdge`);
- a switch without a default falls into its first case (`SwitchProofs.SwitchDocumentedIff`, `Edges.SwitchEdge`);
- in builds with assertions, a matcher with an empty payload is written but not read back
  (`ChainCodec.ChainRoundTrip`, `ChainCodec.EmptyPayloadLost`).

Agreement is over packets: every environment the program can run in, through the parser. Each edge of a matcher is a
chain and a packet: the documented verdict, and the other verdict that the generated image returns. The documentation
does not describe the `set.srcip6` and `set.srcip6port` matchers: what they promise is taken from the comments and the
key layout of `src/bpfilter/cgen/matcher/set.c`.

A little-endian host is assumed throughout.

## Model

| member | source | states |
|---|---|---|
| `Compiler.CompilerCorrect` | src/bpfilter/cgen/program.c:987-1042 | for every accepted chain, of any length, whose jumps out of a rule fit 16 bits and whose lookups do not read past the keys they build, every hook and packet, the image runs to its end, returns the hook's code for the chain's verdict, one that makes the kernel do it, and updates exactly the counters the packet goes through |
| `Delivery.PacketFate` | src/bpfilter/cgen/program.c:987-1042 | end to end, for every packet given by its fields: the kernel lets it pass iff first match over those fields says ACCEPT, and drops it iff it says DROP, at each hook by name |
| `Delivery.KernelVerdict` | src/bpfilter/cgen/program.c:987-1042 | for every packet, parsed or not: passed iff the chain accepts it, dropped iff the chain drops it, counted with the size that hook counts |
| `Delivery.MeetsIff` | src/bpfilter/cgen/program.c:702-746 | parser and generated test together decide each matcher on the packet's own fields: source and destination address, ports, flags, protocols, interface of the right direction, set keys |
| `Delivery.Parsed` | src/bpfilter/cgen/stub.c:43-299 | a packet with IPv4 options, any transport and any hook framing is parsed to its headers, its interface and its counted size |
| `Delivery.AddressFate` | src/bpfilter/cgen/matcher/ip4.c:27-50 | dropping a source network drops exactly the packets whose source is in it, whatever the destination, and the same for destinations |
| `Delivery.InterfaceFate` | src/bpfilter/cgen/nf.c:56-81 | dropping an interface at PRE_ROUTING, LOCAL_IN and FORWARD looks at the input interface only, at LOCAL_OUT and POST_ROUTING at the output interface only |
| `Delivery.OneRuleFate` | src/bpfilter/cgen/program.c:691-778 | a chain with one dropping rule drops exactly what its matcher says of the fields |
| `Codegen.VerdictCode` | src/bpfilter/cgen/xdp.c:97-107 | the code of a verdict is one on which the kernel passes the packet iff the verdict is ACCEPT and drops it iff it is DROP |
| `Compiler.BodyExec` | src/bpfilter/cgen/program.c:1000-1029 | prologue, rules and policy together compute the meaning of the chain, before linking |
| `Compiler.RulesAndPolicyExec` | src/bpfilter/cgen/program.c:1012-1029 | after a successful prologue, the rules then the policy decide the packet as first match does |
| `Premises.OneRuleCompiles` | src/bpfilter/cgen/program.c:691-778 | the premises of the theorem can be met: at every hook and with every policy, every matcher the generator accepts makes a chain that compiles |
| `Premises.LongChainCompiles` | src/bpfilter/cgen/program.c:1012-1017 | and so does every chain of up to 65536 rules, each of up to 500 accepted matchers |
| `Premises.SetRuleLoads` | src/bpfilter/cgen/matcher/ip4.c:52-89 | and so for a rule that looks up a set, with an environment that holds it |
| `Acceptance.ProgramIff` | src/bpfilter/cgen/program.c:987-1304 | a chain becomes a program iff every matcher's operator is supported, a set exists where one is looked up, and the kernel takes it; else EINVAL, ENOENT or the kernel's error |
| `Acceptance.SupportedIff` | src/bpfilter/cgen/matcher/ip4.c:121-148 | which operators each matcher has, and which sets an IPv4 address can be looked up in |
| `Acceptance.SetsFitIff` | src/bpfilter/cgen/matcher/set.c:110-120 | the theorem's premise on sets: set 0 has elements no wider than the key the matcher looks up |
| `Promises.DocumentedProgram` | src/bpfilter/cgen/program.c:691-778 | when every matcher is documented and exact, the image computes the verdict and counters the documentation promises |
| `RuleProofs.RuleExec` | src/bpfilter/cgen/program.c:691-778 | a rule's block: counts and returns iff every matcher holds, otherwise falls to the first instruction after it, protocol registers, header slots, size and interface unchanged |
| `RuleProofs.RulesExec` | src/bpfilter/cgen/program.c:1012-1017 | all the rules of a chain, by first match |
| `RuleProofs.LinkNextExec` | src/bpfilter/cgen/program.c:648-651 | patching the pending next-rule jumps makes "leave the rule" mean "continue after the block" |
| `RuleProofs.ShortJumpsIff` | src/bpfilter/cgen/program.c:611-651 | the patched jumps go to the end of the block iff each distance to it fits 16 bits; a longer one wraps around |
| `RuleProofs.MatchersExec` | src/bpfilter/cgen/program.c:699-747 | the conjunction of any list of matchers |
| `RuleProofs.ActionExec` | src/bpfilter/cgen/program.c:749-771 | counter update and verdict of a matching rule |
| `SetProofs.MatcherExec` | src/bpfilter/cgen/program.c:702-746 | every matcher: its code falls through iff the matcher accepts the packet, else it leaves the rule |
| `MatcherProofs.Ip6Exec` | src/bpfilter/cgen/matcher/ip6.c:30-179 | the two-half 64-bit comparison with its mask accepts iff the bytewise comparison holds (EQ) or fails (NE) |
| `MatcherProofs.Ip6EqExec` | src/bpfilter/cgen/matcher/ip6.c:69-97 | EQ: both halves must be equal, or the rule is left |
| `MatcherProofs.Ip6NeExec` | src/bpfilter/cgen/matcher/ip6.c:98-153 | NE through two jumps: one half that differs is enough |
| `MatcherProofs.LoadImm64Exec` | src/bpfilter/cgen/matcher/ip6.c:25-27 | a 64-bit constant assembled by shift and or is the little-endian value of its bytes |
| `MatcherProofs.L4PortExec` | src/bpfilter/cgen/matcher/tcp.c:24-55 | TCP and UDP port matchers |
| `MatcherProofs.L4FlagsExec` | src/bpfilter/cgen/matcher/tcp.c:57-89 | TCP flags with EQ, NE, ANY and ALL |
| `MatcherProofs.MetaPortExec` | src/bpfilter/cgen/matcher/meta.c:58-111 | port of whatever L4 protocol the packet has, through a generated switch |
| `MatcherProofs.IfindexExec` | src/bpfilter/cgen/matcher/meta.c:26-36 | interface matcher, on 16 bits |
| `MatcherProofs.ProtoExec` | src/bpfilter/cgen/matcher/meta.c:38-56 | L3 and L4 protocol matchers |
| `MatcherProofs.Ip4AddrExec` | src/bpfilter/cgen/matcher/ip4.c:27-50 | masked IPv4 address comparison |
| `SetProofs.Ip4Exec` | src/bpfilter/cgen/matcher/ip4.c:121-148 | all the IPv4 matchers, sets included |
| `SetProofs.SetIp6Exec` | src/bpfilter/cgen/matcher/set.c:89-126 | the key built in the scratch area is the source address; accepted iff set 0 holds it, or its first bytes when set 0 has shorter keys |
| `SetProofs.SetIp6PortExec` | src/bpfilter/cgen/matcher/set.c:29-87 | the 18-byte key is source address and port; accepted iff TCP, port not 0, and set 0 holds it or its first bytes |
| `SetProofs.LongKeyExec` | src/bpfilter/cgen/matcher/set.c:110-120 | when set 0 has longer keys than the matcher builds, the lookup key goes on with the stack bytes after it: the matcher decides by them if all were written, else the machine is stuck |
| `SwitchProofs.SwitchExec` | src/bpfilter/cgen/swich.c:170-210 | the emitted switch runs the first case whose immediate equals the register, else the default, and ends just after itself |
| `SwitchProofs.SwitchDocumentedIff` | src/bpfilter/cgen/swich.c:182-194 | it does what is documented for every value iff there is a default or nothing to fall into |
| `HeaderProofs.PrologueExec` | src/bpfilter/cgen/stub.c:43-299 | after the prologue either the program accepted on the error counter, or registers and header slots hold what a byte parser finds |
| `HeaderProofs.L3Exec` | src/bpfilter/cgen/stub.c:141-234 | L3 header: located by slicing, L4 protocol and offset from IHL or the fixed IPv6 header, unsupported protocols read as 0 |
| `HeaderProofs.L4Exec` | src/bpfilter/cgen/stub.c:236-299 | L4 header: located by slicing, unsupported protocols read as 0 |
| `ParserProofs.L2Exec` | src/bpfilter/cgen/stub.c:93-139 | Ethernet header: ethertype into r7, or an accepted error |
| `ParserProofs.DynptrExec` | src/bpfilter/cgen/stub.c:43-77 | dynamic pointer or an accepted error |
| `PrologueProofs.HookExec` | src/bpfilter/cgen/xdp.c:50-88 | what the hook reports (size, interface, family) is stored in the context, for every flavor |
| `PrologueProofs.CgroupExec` | src/bpfilter/cgen/cgroup.c:51-120 | cgroup flavor: size with the Ethernet header added, ethertype from the family |
| `PrologueProofs.NfExec` | src/bpfilter/cgen/nf.c:62-138 | Netfilter flavor: device of the right direction, ethertype from the family |
| `Linker.SubExec` | src/bpfilter/cgen/program.c:795-842 | the counter subroutine adds one packet and its size to the counter of its index, and nothing if the index is outside the map |
| `Linker.CallReaches` | src/bpfilter/cgen/program.c:672-678 | a linked call runs the subroutine and comes back with only scratch registers and that counter changed |
| `Linker.ReachBody` | src/bpfilter/cgen/program.c:987-1042 | the small-step machine on the linked image refines the fragment semantics |
| `Vm.ReachesUnique` | src/bpfilter/cgen/program.c:987-1042 | a run has one result |
| `ControlFlow.ImageSafe` | src/bpfilter/cgen/program.c:632-689 | each jump and call goes forward, lands inside the image, never on the second slot of a wide load; no path runs off the end |
| `ControlFlow.StepForward` | src/bpfilter/cgen/jmp.c:17-26 | every step moves forward in its frame and stays on instructions of the image, whatever registers and packet hold |
| `ControlFlow.RunInPlace` | src/bpfilter/cgen/program.c:632-689 | after any number of steps control, and the place a call returns to, are instructions of the image: no run goes off the end |
| `ControlFlow.RunEnds` | src/bpfilter/cgen/program.c:632-689 | every run of a safe image ends |
| `ControlFlow.ImageRuns` | src/bpfilter/cgen/program.c:987-1042 | both, for the image of every accepted chain, whatever the packet, the counters and the maps |
| `Counters.CounterExact` | src/bpfilter/cgen/program.c:795-842 | over any packet sequence, counter i grows by one packet and its size exactly for the packets that count in i |
| `Counters.PacketHits` | src/bpfilter/cgen/program.c:749-754 | slot i is hit iff counted rule i is reached and matches, or it is the slot of how the packet ended |
| `Counters.EndingExists` | src/bpfilter/cgen/program.c:1012-1029 | each packet ends in a terminal rule, the policy or the error slot |
| `Counters.EndingUnique` | src/bpfilter/cgen/program.c:1012-1029 | and in only one of them |
| `Counters.Conservation` | src/bpfilter/cgen/program.c:994-998 | when every rule decides and counts, the packets that count in all the slots add up to the packets |
| `Counters.MachineConservation` | src/bpfilter/cgen/program.c:795-842 | and so on the machine: after any packet sequence the map's packet counters together have grown by the number of packets, modulo 2^64 |
| `Counters.ProcessesAll` | src/bpfilter/cgen/program.c:987-1042 | every packet sequence has a result |
| `Counters.ProcessesUnique` | src/bpfilter/cgen/program.c:987-1042 | and only one |
| `Counters.ReaderAgrees` | src/bpfilter/cgen/cgen.c:188-206 | the reader's slot for a rule, the policy or the errors is inside the map and is the one the program updates |
| `Documented.ExactIff` | doc/usage/bfcli.rst:147-346 | for every documented matcher, generated and documented meaning agree on every packet at every hook iff a condition on its operator, payload and sets holds; the two `set` matchers, which the documentation leaves out, mean what set.c sets out to look up |
| `Documented.RangeExactIff` | src/bpfilter/cgen/matcher/tcp.c:43-48 | a port range is exact iff it is one port, all ports, or empty both ways |
| `Documented.IfindexExactIff` | src/bpfilter/cgen/matcher/meta.c:29-34 | documented interface matchers are right on every packet of an interface iff its index fits 16 bits |
| `Documented.IfindexNever` | src/bpfilter/cgen/matcher/meta.c:29-34 | no interface matcher is right on the packets of all interfaces |
| `Documented.Ip6EqExactIff` | src/bpfilter/cgen/matcher/ip6.c:42-67 | the IPv6 comparison is the masked one iff the mask does not end in 0xff or is all ones |
| `Documented.PortExactIff` | src/bpfilter/cgen/matcher/meta.c:87-111 | port matchers agree with the documentation on every packet iff the sentinel 0 and the swapped range do not matter |
| `Documented.SeenPort` | src/bpfilter/cgen/stub.c:141-299 | for each port a TCP and a UDP packet over IPv4 that the parser reads with that port |
| `Documented.SeenKey` | src/bpfilter/cgen/stub.c:141-299 | for each address and port a TCP and a UDP packet over IPv6 that the parser reads with them |
| `Documented.SetIp6PortExactIff` | src/bpfilter/cgen/matcher/set.c:45-58 | the (address, port) set matcher agrees on every packet iff its set has no such key and set 0 hits none with a port |
| `Edges.Departure` | src/bpfilter/cgen/program.c:691-778 | where the two meanings of a matcher differ on a packet, the image of a one-rule chain returns the other verdict than documented |
| `Edges.RangeEdge` | src/bpfilter/cgen/matcher/tcp.c:43-48 | dropping TCP ports 80 to 443: the image accepts a packet to port 300 and drops one to port 65376 |
| `Edges.PortZeroEdge` | src/bpfilter/cgen/matcher/meta.c:87-88 | dropping port 0: the image accepts a packet to it |
| `Edges.IfindexEdge` | src/bpfilter/cgen/matcher/meta.c:29-34 | dropping what comes from interface 1: the image drops a packet of interface 65537 |
| `Edges.MaskEdge` | src/bpfilter/cgen/matcher/ip6.c:42-42 | a mask with a hole that ends in 0xff: the image accepts a packet whose source is in the network to drop |
| `Edges.UdpSetEdge` | src/bpfilter/cgen/matcher/set.c:45-58 | dropping the sources of a set: the image accepts a UDP packet from one of them |
| `Edges.SecondSetEdge` | src/bpfilter/cgen/program.c:662-670 | two sets with a map and a descriptor each, dropping the sources of set 1: the image accepts one that is only in set 1, and drops one that is only in set 0 |
| `Edges.SwitchEdge` | src/bpfilter/cgen/swich.c:182-194 | an unlisted value runs the first case when there is no default |
| `Growth.RoundNextPowerOf2` | src/bpfilter/cgen/program.c:578-588 | the least power of two not below the value, for values up to 2^32 and every power of two |
| `Emitter.Program.GrowImg` | src/bpfilter/cgen/program.c:590-609 | 64 slots at first, then twice as many; every instruction stays |
| `Emitter.Program.Emit` | src/bpfilter/cgen/program.c:882-897 | one instruction is appended, earlier ones unchanged, capacity a power of two from 64 up and below twice the size once above 64 |
| `Emitter.Program.EmitFixup` | src/bpfilter/cgen/program.c:919-950 | the recorded fixup indexes exactly the instruction emitted with it |
| `Emitter.Program.JmpctxCleanup` | src/bpfilter/cgen/jmp.c:17-26 | the jump at an index goes to the next instruction emitted; nothing else changes |
| `Emitter.Program.ResolveFixups` | src/bpfilter/cgen/program.c:632-689 | every pending instruction of a type is patched once, its fixup deleted from the list being walked, the others kept in order; fails iff a set is looked up and there is none |
| `Emitter.PendingSplit` | src/bpfilter/cgen/program.c:638-686 | the fixups after a point are those of the instructions after it, in order |
| `Emitter.WalkEnd` | src/bpfilter/cgen/program.c:632-689 | walking to the end while deleting leaves the fully linked code |
| `Swich.Swich.AddOption` | src/bpfilter/cgen/swich.c:125-145 | options are kept in order: a value that an earlier option lists keeps it, otherwise the new one is for its immediate |
| `Swich.Swich.SetDefault` | src/bpfilter/cgen/swich.c:147-168 | values that no option lists now run the new instructions, in place of an earlier default; the others run what they ran |
| `Swich.Swich.Generate` | src/bpfilter/cgen/swich.c:170-210 | three loops of emitting and patching append exactly the switch's code |
| `Swich.HalfJump` | src/bpfilter/cgen/swich.c:184-192 | patching comparison i when i bodies are emitted gives it its final offset |
| `Swich.MostStep` | src/bpfilter/cgen/swich.c:201-207 | patching the jump that ends body i makes it leave the switch |
| `Matchers.GenerateMatcher` | src/bpfilter/cgen/program.c:702-746 | the generator of every matcher appends its code or fails as it does |
| `Matchers.GenerateIp6` | src/bpfilter/cgen/matcher/ip6.c:158-179 | appends the IPv6 matcher, both jump contexts patched |
| `Matchers.NePatched` | src/bpfilter/cgen/matcher/ip6.c:119-152 | both jumps of NE go to the end of the matcher |
| `Matchers.GenerateMeta` | src/bpfilter/cgen/matcher/meta.c:113-140 | appends the metadata matchers |
| `Matchers.GenerateIp4` | src/bpfilter/cgen/matcher/ip4.c:121-148 | appends the IPv4 matchers, or rejects the operator or the set |
| `Matchers.GenerateL4` | src/bpfilter/cgen/matcher/tcp.c:91-114 | appends the TCP and UDP matchers, or rejects the operator |
| `Matchers.GenerateSetIp6Port` | src/bpfilter/cgen/matcher/set.c:29-87 | appends the (address, port) set matcher |
| `Matchers.GenerateSetIp6` | src/bpfilter/cgen/matcher/set.c:89-126 | appends the address set matcher |
| `Stubs.EmitPrologue` | src/bpfilter/cgen/stub.c:43-299 | appends the prologue of the program's flavor |
| `Stubs.EmitL3` | src/bpfilter/cgen/stub.c:141-234 | appends the L3 stub; its outer jump is patched at the end of the function |
| `Stubs.EmitL4` | src/bpfilter/cgen/stub.c:236-299 | appends the L4 stub |
| `Stubs.EmitL2` | src/bpfilter/cgen/stub.c:93-139 | appends the L2 stub |
| `Stubs.EmitDynptr` | src/bpfilter/cgen/stub.c:43-77 | appends the dynamic pointer stub |
| `Stubs.EmitNf` | src/bpfilter/cgen/nf.c:62-123 | appends what the Netfilter flavor reads from its hook |
| `Stubs.EmitTc` | src/bpfilter/cgen/tc.c:45-72 | appends what the TC flavor reads from its hook |
| `Stubs.EmitCgroup` | src/bpfilter/cgen/cgroup.c:51-106 | appends what the cgroup flavor reads from its hook |
| `Stubs.EmitXdp` | src/bpfilter/cgen/xdp.c:56-70 | appends what the XDP flavor reads from its hook |
| `Generate.GenerateRule` | src/bpfilter/cgen/program.c:691-778 | appends the linked rule; no next-rule fixup is pending afterwards |
| `Generate.GenerateRules` | src/bpfilter/cgen/program.c:1012-1017 | appends all the rules, or fails with the first rule that does |
| `Generate.LinkRule` | src/bpfilter/cgen/program.c:773-775 | with nothing pending before a rule, resolving next-rule fixups links that rule's own code |
| `Generate.GenerateUpdateCounters` | src/bpfilter/cgen/program.c:795-842 | appends the subroutine |
| `Generate.GenerateFunctions` | src/bpfilter/cgen/program.c:844-880 | one copy of the subroutine iff a call is pending, although the list walked grows |
| `Generate.GenerateProgram` | src/bpfilter/cgen/program.c:987-1042 | the body, one subroutine after it, every call pointing to it, no call pending |
| `Loading.LoadMaps` | src/bpfilter/cgen/program.c:1207-1304 | after the map descriptors are filled in no fixup is left and the image is the linked one |
| `Loading.LinkAll` | src/bpfilter/cgen/program.c:632-689 | the three kinds of fixups, resolved at different times, compose to the linked image |
| `Loading.UsesBody` | src/bpfilter/cgen/program.c:660-671 | a program has a set fixup iff some rule looks up a set |
| `Loading.Build` | src/bpfilter/cgen/program.c:987-1304 | generation fails iff a rule cannot be generated, loading fails iff a rule looks up a set and there is none, otherwise the result is the image of the compiler theorem |
| `Marsh.NextChild` | src/core/marsh.h:87-131 | on any bytes the next child lies inside its parent and after the previous one |
| `Marsh.Walk` | src/core/marsh.h:119-131 | child iteration terminates on any bytes, with contiguous children |
| `Marsh.NextIs` | src/core/marsh.c:44-86 | the children of a written node are found one after the other, and nothing after the last |
| `Marsh.BuiltChildren` | src/core/marsh.h:119-131 | iterating over a node that was built finds its children, all of them and in order |
| `Marsh.NewNode` | src/core/marsh.c:14-31 | a buffer with the length of the data and the data |
| `Marsh.Node.AddChildObj` | src/core/marsh.c:44-66 | after moving to a larger buffer the bytes are those of a node with one more child, its length field included |
| `Marsh.Node.AddChildRaw` | src/core/marsh.c:68-86 | the same with raw data wrapped in a node of its own |
| `Codec.MatcherRoundTrip` | src/core/matcher.c:40-111 | a matcher comes back unless its payload is empty |
| `Codec.RuleRoundTrip` | src/core/rule.c:53-145 | a rule comes back with its matchers in order, iff none has an empty payload |
| `Codec.SetRoundTrip` | src/core/set.c:50-136 | a set of fixed-size elements comes back |
| `Codec.ListRoundTrip` | src/core/list.c:110-138 | a list comes back as its elements do, in order |
| `ChainCodec.OptsRoundTrip` | src/core/chain.c:88-124 | hook options come back, absent strings as absent |
| `ChainCodec.ChainRoundTrip` | src/core/chain.c:59-274 | a chain comes back equal iff no matcher has an empty payload; otherwise the reader's assertion fails |
| `ChainCodec.OpenPolicyRefused` | src/core/chain.c:22-28 | a chain whose policy is not a final verdict is refused |
| `ChainCodec.ExtraOptRefused` | src/core/chain.c:116-124 | hook options with one child more are refused |
| `ChainCodec.EmptyPayloadLost` | src/core/matcher.c:24-24 | a concrete chain that does not come back |
| `ChainCodec.CtxRoundTrip` | src/bpfilter/ctx.c:147-185 | a context of codegens without programs comes back, iff no payload is empty |
| `WireFormat.MatcherBytes` | src/core/matcher.c:88-111 | the exact bytes of a matcher, with the number of every type and operator |
| `WireFormat.RuleBytes` | src/core/rule.c:53-91 | the exact bytes of a rule around its matchers |
| `WireFormat.SetBytes` | src/core/set.c:100-136 | the exact bytes of a set |
| `WireFormat.OptsBytes` | src/core/chain.c:202-246 | the exact bytes of hook options |
| `WireFormat.ChainBytes` | src/core/chain.c:182-274 | the exact bytes of a chain around its sets and rules |
| `WireFormat.ElemsRoundTrip` | src/core/set.c:20-32 | sets of IPv4 addresses, of IPv6 addresses and of IPv6 addresses with a port come back, whatever their elements |
| `Serializer.MarshMatchers` | src/core/list.c:110-138 | the list writer, over the matcher writer |
| `Serializer.MarshMatcher` | src/core/matcher.c:88-111 | the matcher writer |
| `Serializer.MarshRule` | src/core/rule.c:53-91 | the rule writer, over the writer of its matchers |
| `Serializer.MarshSet` | src/core/set.c:100-136 | the set writer: elements packed in one buffer of the right size |
| `Serializer.MarshOpts` | src/core/chain.c:202-246 | the writer of hook options, strings with their NUL |
| `Serializer.MarshChain` | src/core/chain.c:182-274 | the chain writer, over the writers of its options, sets and rules |
| `Serializer.MarshCgen` | src/bpfilter/cgen/cgen.c:100-150 | the writer of a codegen without program, over the chain writer |
| `Serializer.MarshCtx` | src/bpfilter/ctx.c:261-287 | the context writer: one list for each hook |
| `Serializer.UnmarshMatcher` | src/core/matcher.c:40-75 | the matcher reader; gives back a matcher that was written |
| `Serializer.UnmarshMatchers` | src/core/rule.c:113-128 | the cursor loop reads every child in order, or stops at the first error |
| `Serializer.UnmarshRule` | src/core/rule.c:93-145 | the rule reader, over the reader of its matchers; gives back a rule that was written |
| `Serializer.UnmarshElems` | src/core/set.c:70-82 | as many elements as the data holds, by index |
| `Serializer.UnmarshSet` | src/core/set.c:50-87 | the set reader; gives back a set that was written |
| `Serializer.UnmarshOpts` | src/core/chain.c:84-125 | the reader of hook options, which refuses extra children and gives back options that were written |
| `Serializer.UnmarshChain` | src/core/chain.c:59-167 | the chain reader, over the readers of its options, sets and rules; gives back a chain that was written |
| `Serializer.UnmarshCgen` | src/bpfilter/cgen/cgen.c:43-84 | the reader of a codegen without program; gives back one that was written |
| `Serializer.UnmarshCtx` | src/bpfilter/ctx.c:147-185 | the context reader: nested cursor loops |
| `Serializer.SaveAndLoad` | src/bpfilter/ctx.c:371-401 | writing a whole context with the writers and reading it with the readers gives it back iff no payload is empty |
| `LinkedList.List.AddHead` | src/core/list.c:140-163 | prepends; links both ways stay right |
| `LinkedList.List.AddTail` | src/core/list.c:165-188 | appends; links both ways stay right |
| `LinkedList.List.Delete` | src/core/list.c:190-208 | removes exactly that node, wherever it is |
| `LinkedList.List.GetAt` | src/core/list.c:210-221 | the element at an index, or none |
| `LinkedList.List.Forward` | src/core/list.h:98-101 | the forward walk is the abstract sequence |
| `LinkedList.List.Backward` | src/core/list.h:114-117 | the backward walk is its reverse |
| `LinkedList.List.ForeachDelete` | src/core/list.h:88-101 | deleting any subset while iterating visits every original node once and leaves exactly the rest |
| `LinkedList.RunAll` | src/core/list.c:140-208 | after any operations both walks agree with the sequence |
| `Printer.Printer.AddMsg` | src/bpfilter/cgen/printer.c:319-358 | found or appended; nothing that was there moves, messages stay distinct and offsets the sums of the lengths |
| `Printer.Printer.Assemble` | src/bpfilter/cgen/printer.c:360-397 | one buffer in which every message selects its string and NUL; a lone NUL without messages |
| `Printer.LaidSelects` | src/bpfilter/cgen/printer.c:304-317 | offsets that are prefix sums select each message in the concatenation |
| `Printer.AddAll` | src/bpfilter/cgen/printer.c:319-397 | what any sequence of requests returned still selects its string in the final buffer; equal strings share one place |
| `Context.Ctx.GetCgen` | src/bpfilter/ctx.c:52-112 | the getter of each hook finds the codegen with the same interface (XDP, TC), the same cgroup path (cgroup), or any (Netfilter), and nothing iff there is none |
| `Context.SameKeyIff` | src/bpfilter/ctx.c:99-112 | two hooks and options share a key iff the hooks are the same and so is the interface, the cgroup path, or nothing, hook by hook |
| `Registry.FoundIff` | src/bpfilter/xlate/cli.c:59-100 | after any run of requests there is a codegen for a hook and options iff the last request about that place set a chain there, and it holds that request's chain and program |
| `Registry.RunAndFind` | src/bpfilter/ctx.c:287-300 | and so for what the getter finds in the registry those requests leave |
| `Registry.SentChain` | src/bpfilter/xlate/cli.c:58-74 | a request carrying the bytes of a chain is one to set that chain; one shorter than a header is invalid |
| `Registry.TwoInterfaces` | src/bpfilter/ctx.c:52-64 | chains set for two interfaces of one XDP or TC hook are both found, each with its own options |
| `Context.Ctx.SetCgen` | src/bpfilter/ctx.c:333-341 | files a codegen at its key and changes no other; an existing key is refused |
| `Context.LoadProgram` | src/bpfilter/cgen/program.c:1357-1390 | generation, map creation and loading with the imperative generator: the program, or the first failure |
| `Context.ProgramIsImage` | src/bpfilter/cgen/cgen.c:208-235 | a loaded program is the image of the compiler theorem in every environment that has its maps |
| `Context.Cgen.Up` | src/bpfilter/cgen/cgen.c:208-235 | the program of the chain is kept iff it can be generated, linked and loaded; otherwise nothing changes and the failure is reported |
| `Context.Cgen.Update` | src/bpfilter/cgen/cgen.c:237-267 | chain and program are replaced together, or neither |
| `Context.Ctx.SetChain` | src/bpfilter/xlate/cli.c:73-97 | create or update: the chain's key gets the chain and its program and no other key changes; a failure changes nothing |
| `Context.Ctx.SetRules` | src/bpfilter/xlate/cli.c:59-100 | the request: the chain is read from the bytes and set; any failure changes nothing and is reported |
| `Context.Ctx.Flush` | src/bpfilter/ctx.c:403-436 | no key is left |
| `Context.RunAll` | src/bpfilter/xlate/cli.c:45-100 | over any run of requests the context is the map the requests describe, with at most one codegen per key |
| `Enforcement.InstalledDecides` | src/bpfilter/xlate/cli.c:59-100 | after any run of requests, the program at a key was generated from the chain at that key and loaded, and ends on every packet with the verdict and the counts of that chain |
| `Enforcement.RunEnforces` | src/bpfilter/cgen/cgen.c:208-267 | every request keeps each key's program one that was generated from its chain and loaded |
| `Enforcement.EveryPacketRuns` | src/bpfilter/cgen/program.c:1207-1304 | there is such a packet environment for every packet, hook and chain, as soon as the counters map has a descriptor of its own |
| `Enforcement.RunAndLook` | src/bpfilter/xlate/cli.c:45-100 | and so for every codegen of the registry the requests leave |
| `Netfilter.AttachFirst` | src/bpfilter/cgen/nf.c:206-225 | one link per family at the even priority |
| `Netfilter.AttachBeside` | src/bpfilter/cgen/nf.c:177-205 | one new link per family, never at the priority of the link it replaces, both families covered at each step |
| `Netfilter.Replace` | src/bpfilter/cgen/cgen.c:237-267 | the new program takes over, or on any failure the old one stays alone; only links of others can be in the way; both families filtered in every state on the way |
| `Netfilter.OwnNotInTheWay` | src/bpfilter/cgen/nf.c:194-202 | the live program's own links never occupy the priority its successor takes |
| `Netfilter.RunAll` | src/bpfilter/cgen/program.c:1357-1424 | over any run of updates and refusals the live program holds one link per family at one priority; from the first state in which we filter both families we filter both in every later state, up to the present one, and while no program is live we never do |
| `Iptables.TargetVerdictIff` | src/bpfilter/xlate/ipt/ipt.c:112-144 | a target is translated to a verdict iff it has no name and its signed value is the negated Netfilter number of the verdict minus one; everything else is refused as unsupported |
| `IptEntries.EntryRuleIff` | src/bpfilter/xlate/ipt/ipt.c:178-258 | an entry is translated iff it has no extensions, no interface names, a protocol below 256 and a standard accept or drop target, by byte offsets; then to the rule its bytes say |
| `IptTable.PutBack` | src/bpfilter/xlate/ipt/ipt.c:267-302 | writing the matchers of an entry into an empty one restores its fields |
| `IptTable.PutAllMeans` | src/bpfilter/xlate/ipt/ipt.c:267-302 | a list of matchers can be written iff all are on IPv4 addresses or protocol; the last of each kind is what the entry holds, an inversion by any of a side inverts it |
| `IptTable.EntryBack` | src/bpfilter/xlate/ipt/ipt.c:178-258 | reading an entry that was written gives its matchers and verdict |
| `IptGenerate.RuleToEntry` | src/bpfilter/xlate/ipt/ipt.c:267-302 | writes one rule's entry in place, touching nothing outside of it, or fails on an unsupported matcher or verdict |
| `IptGenerate.VerdictToTarget` | src/bpfilter/xlate/ipt/ipt.c:146-168 | writes the size and the verdict of the standard target, keeping the fields of the entry and every byte outside of it, or refuses the verdict |
| `IptGenerate.GenReplace` | src/bpfilter/xlate/ipt/ipt.c:434-553 | the table of any ruleset: hook entries, underflow = hook entry + rules times rule size, a last entry with the error target, its sizes and names, all writes inside the allocation; fails iff a rule cannot be written |
| `IptRoundTrip.GetRuleset` | src/bpfilter/xlate/ipt/ipt.c:369-424 | the chain of each hook; where INPUT, FORWARD or OUTPUT has none an empty accepting one, elsewhere none; a rule count equal to the rows of the table |
| `IptRoundTrip.Tiles` | src/bpfilter/xlate/ipt/ipt.c:460-540 | following the entries' sizes visits each entry once and ends at the size of the table |
| `IptRoundTrip.UnpackRules` | src/bpfilter/xlate/ipt/ipt.c:325-339 | the loop over a chain's entries succeeds iff each entry visited can be translated, and gives their rules in order |
| `IptRoundTrip.XlateWholeIff` | src/bpfilter/xlate/ipt/ipt.c:304-344 | a table is translated iff every entry visited from every hook is, and every policy is a standard target; each hook by its Netfilter number |
| `IptRoundTrip.RowBytes` | src/bpfilter/xlate/ipt/ipt.c:460-540 | offsets and sizes in the entries of a generated table |
| `IptRoundTrip.ErrorBytes` | src/bpfilter/xlate/ipt/ipt.c:538-546 | the entry that ends it |
| `IptRoundTrip.XlateFromTable` | src/bpfilter/xlate/ipt/ipt.c:304-344 | what a chain obtained from any table looks like |
| `IptRoundTrip.XlateBack` | src/bpfilter/xlate/ipt/ipt.c:304-344 | translating a generated table gives back the chains it was generated from |
| `IptRoundTrip.XlateTable` | src/bpfilter/xlate/ipt/ipt.c:563-590 | the translation of all the hooks: which tables it accepts and the chains it gives |
| `IptRoundTrip.Reproduce` | src/bpfilter/xlate/ipt/ipt.c:434-590 | any chain obtained from a table is reproduced exactly by generating a table and translating it; missing mandatory hooks come back as empty accepting chains |

## Left out

- System calls, BTF lookups, map and link creation, pin directories, file I/O: kernel answers are parameters; the BPF helpers used are contracts of the machine (a lookup finds a key iff it is in the map, a slice succeeds iff the range is inside the packet).
- Verbose mode: the instructions `EMIT_PRINT` adds to the stubs are not emitted; the message table itself is modelled.
- Allocation failures, except where atomicity on error is the property.
- Compiler.CompilerCorrect: images below 2^31 slots in which each jump out of a rule fits its 16-bit offset (a longer one does not go where it should, `RuleProofs.ShortJumpsIff`), fewer than 2^32 - 1 rules, packets below 2^31 bytes, and payloads at least as long as the generator reads; rules that look up a set need set 0, the only one the generated code addresses, to have keys no longer than the ones they build: a longer lookup goes on with whatever the stack holds after the key, and where that was never written the model's machine is stuck (`SetProofs.LongKeyExec`).
- Emitter.Program.JmpctxCleanup: an offset above 32767 is truncated to 16 bits, as in the source, which only warns.
- Emitter.Program.ResolveFixups: the debug assertion that a patched offset is below 32767 is not modelled; the printer map's fixups are not, since verbose mode is off.
- Growth.RoundNextPowerOf2: sizes are unbounded; the wrap-around of `size_t` at 2^64 is not modelled.
- Matchers.GenerateIp4: a set index that is not in the chain is an error, where the source dereferences a null pointer.
- Marsh.NextChild: addresses do not wrap around; a length close to 2^64 is simply too long.
- ChainCodec.ChainRoundTrip: for builds with assertions; without them an empty payload is read back as one.
- ChainCodec.ReadChain: an enumeration value outside its range is an error, where the source keeps it unchecked.
- Context.Ctx.GetCgen: a cgroup chain without a path is compared like any other value, where the source passes a null pointer to `strcmp`.
- LinkedList.List.Delete: freeing the node's data, and taking data out of a node, are not modelled.
- IptGenerate.GenReplace: rule and policy counters copied into the entries, and the dump of the table.
- IptRoundTrip.ReadRules: an entry whose size is 0, on which the source never stops, is an error.
- Netfilter.RunAll: updates with attach on; the pin-failure path of loading, which skips the restore step, and the other flavors' attach functions.
- Program unmarshalling (it reopens pinned kernel objects), saving and restoring across restarts, the nftables front-end, dump and log formatting, option parsing, enumeration names: foreign effects or easy finite tables.
