# The testbus, verified

Models, in Dafny 4.11, of the parts of the testbus that are hardest to get
right, and proofs of what they promise. `dafny verify dfyconfig.toml` checks
everything.

The testbus runs test cases on several hosts. A master keeps the hosts, tests,
commands and processes; agents on the hosts talk to it over D-Bus; a proxy
carries many D-Bus connections over one serial line. The modules follow that:

- **The multiplexing proxy.** `Frames` is the packet format, `Buffers` the byte
  buffer, `ProxySteps` one proxy as a value and what every event does to it,
  `Proxy` the program's endpoints, queues and receive loops as classes proved
  against these functions, `ProxySide` what one proxy keeps, `ProxyLink` the
  stream from one to the other, and `ProxyNet` two proxies joined by a reliable
  byte stream. `ProxyRuns` has the theorems about all their runs, `ProxyClose` the
  one about the orderly end of a channel, `ProxyEnds` that channels do end,
  `ProxyFailures` runs that end where they should not. `ProxyCopy` is about two
  connections of the same kind.
- **The master's containers.** `ContainerStore` is the graph of containers with
  its reference counts, `Teardown` what tearing containers down does to it,
  `Containers` the operations and the cascade that tears down, `HostRegistry` what
  the list of hosts keeps, `Ownership` that destroyed containers own nothing,
  `Handlers` the D-Bus calls that agents and clients make, `MasterRuns` any series
  of them, and `Deletion` the exact set of containers that a deletion destroys.
- **XML.** `XmlText` is escaping and the trimming of empty lines, `XmlTree` the
  trees and what is printed for them, `XmlParser` what is read, `XmlComments`
  where a comment ends, `XmlRoundTrip` the proof that reading undoes printing, with
  any comments between the tags, and `XmlSyntax` what else is read or refused;
  `XmlWriter` and `XmlReader` are the writer and the reader as classes.
- **Schema types.** `Schema` has the types, the variants and the conversions,
  `SchemaRoundTrip` the proof of when they undo each other, `SchemaFailures` the
  ways in which they do not, `SchemaText` the way through the text of a document,
  `SchemaXml` the loops that convert and the validator with its shared group
  counters, `SchemaValid` what validation means and what conversion passes over.
- **XPath.** `XPath` is the precedence parser for infix expressions.
- **The object mirror.** `ObjectTree` and `Mirror` are trees of D-Bus objects,
  what a server lists and what a client makes of that; `MirrorObjects` has the
  objects themselves.
- **Environments.** `Environ` is the n-way merge, `ProcessEnv` the environment
  that a process gets. `VarArrays` has the arrays of named values that
  environments and XML attributes share.
- **Smaller ones.** `Timers` is the timer list, `Traversal` the walk over an XML
  tree that needs no stack, `Quoting` shell-style quoting, `CNumbers` the
  numbers of the C library.

Some of what the program is meant to do holds only under a condition. There the
model follows the code, a lemma gives the exact condition, and another one an
input for which it fails:

- When the multiplexed connection ends, the proxy closes all its clients just if
  every client in front of a readable one still has output to write
  (`ProxyRuns.AllClientsClosed`): unlinking an endpoint ends the walk over the
  list. With two idle clients, the second stays
  (`ProxyFailures.SecondClientStays`).
- The assertion about the size of a packet holds just if the count in its header
  plus the header fits 32 bits (`ProxyRuns.SizeAssertion`,
  `ProxyFailures.SizeOverflows`).
- The assertion about the credit of a packet just received holds just if the
  packet and all that is queued for the clients are within the grant of the
  multiplexed connection (`ProxyRuns.CreditAssertion`). It does if one call of the
  receive loop read all of the packet (`Proxy.Proxy.RecvDemux`). A packet read in
  pieces may exceed the credit that covered each piece, and two proxies get there
  when the server takes nothing (`ProxyFailures.CreditIsOverrun`).
- No queued buffer's source is freed just if closed endpoints, clients and the
  multiplexed one alike, have all their credit back before they are freed
  (`ProxyRuns.FreedSources`). A client's data may still wait for the multiplexed
  connection when the client is freed (`ProxyFailures.SourceIsFreed`), and
  received data for a client when the multiplexed endpoint is
  (`ProxyFailures.MuxIsFreed`).
- Claiming a host keeps the registry of hosts in order, except for a claim by the
  global context on a host whose name is registered: that lists the host twice
  (`HostRegistry.ClaimedRegistry`, `MasterRuns.RegistryOverRun`,
  `MasterRuns.ListedTwice`). Such a host stays on the list when it is deleted,
  although it was destroyed (`Handlers.DeletedHostStays`).
- A bus name that lost its owner is no host's agent any more, unless it was the
  agent of two (`Handlers.NameLost`).
- An XML tree survives printing and reading just if it is in normal form
  (`XmlRoundTrip.RoundTrip`); empty attribute values are lost, too
  (`XmlRoundTrip.EmptyIsLost`).
- A text survives a comment in it just from the comment's end on
  (`XmlSyntax.CommentInText`); comments between tags change nothing
  (`XmlRoundTrip.NotedReadsBack`).
- A conforming variant survives the conversion to XML and back just if it has no
  object path outside an array and all that matters is kept: flags are zero; the
  names of a bitmap's bits say which bits these are; 32 bits hold the numbers of
  an enumeration, and what is printed for them stands for the same number; no
  union in a union overwrites the kind of the outer one; and array elements are
  strings, paths or bytes (`SchemaRoundTrip.RoundTrip`). `SchemaFailures` has an
  input for each of these.
- A conforming variant with legal names survives the way through the text of an
  XML document, that is conversion, printing, reading and conversion, just if in
  addition its strings are not blank and are their own trimmed form, no kind of a
  union is empty, and what is left of the names of enumeration values after
  trimming stands for the same numbers (`SchemaText.RoundTrip`,
  `SchemaText.EmptyText`).
- The XPath parser accepts no white space before a closing parenthesis or at the
  end (`XPath.ParseIff`, `XPath.BlankBeforeEnd`).
- A client's mirror is exact just if every leaf of the server's tree has
  interfaces and the client did not know any of its objects without
  (`Mirror.MirrorExact`): nothing clears the stale mark of such an object, and it
  goes with all that is below it (`Mirror.KnownIsLost`).
- A joined list of strings survives quoting just if no string is empty
  (`Quoting.RoundTrip`, `Quoting.EmptyItemIsLost`).
- A walk over a node without children visits the node itself and then leaves it
  for its siblings (`Traversal.LeafWalk`, `Traversal.LeafWalkLeaves`).

The text between the tags is read with the entities that the reader knows; an
entity without a name is taken as an error (in the program it reads memory that
was never written), and so is one that does not fit the reader's buffer (there
an assertion ends the program).

## Model

| member | source | states |
|---|---|---|
| Frames.DecodeEncode | proxy/main.c:1335-1348 | a packet's header and payload are found again in its encoding |
| Frames.EncodeDecode | proxy/main.c:1363-1422 | a buffer of exactly one packet is the encoding of what is decoded from it |
| Frames.Layout | proxy/main.c:1335-1348 | the command, the channel and the size are four bytes each, in network order, before the payload |
| Frames.UniqueFraming | proxy/main.c:1514-1589 | a byte stream splits into packets in one way only |
| Buffers.Buffer.PushHead | include/dborb/buffer.h:188-207 | the header goes in front of the data in the room reserved for it |
| Buffers.Buffer.PullHead | include/dborb/buffer.h:224-235 | bytes leave a buffer at its head, the rest stays |
| Buffers.Buffer.EnsureTailroom | proxy/main.c:1514-1562 | a buffer grows without changing its contents |
| Proxy.IoEndpoint.QueueWrite | proxy/main.c:599-620 | a queued buffer goes to the end of the queue and its credit leaves its source |
| Proxy.IoEndpoint.Pullup | proxy/main.c:626-646 | the first queued buffer becomes the one being written; its credit goes back to its source |
| Proxy.IoEndpoint.RecvCopy | proxy/main.c:1431-1462 | what was read is queued at the sink, at the expense of the reader's credit; the end of input marks the sink |
| ProxyCopy.CopyDelivers | proxy/main.c:1431-1462 | in every run between two connections of a kind, what one wrote is an initial piece of what the other read, the end of one's input makes the other close, and credit and queued bytes make up the grant |
| Proxy.IoEndpoint.Discard | proxy/main.c:991-1004 | discarding a queue returns the credit of every buffer in it |
| Proxy.IoEndpoint.Halfclose | proxy/main.c:718-727 | an endpoint that still has output drains it before it closes |
| Proxy.Proxy.Accept | proxy/main.c:1682-1749 | a client gets the next channel id, and its OPEN is queued |
| Proxy.Proxy.RecvMux | proxy/main.c:1465-1511 | data within the credit becomes a DATA packet, the end of input a CLOSE packet |
| Proxy.Proxy.Hangup | proxy/main.c:670-715 | pending output is discarded and its credit returned |
| Proxy.Proxy.Prepare | proxy/main.c:778-785 | before each poll the next buffer is pulled up, or a drained endpoint closed |
| Proxy.Proxy.WriteReady | proxy/main.c:730-775 | what write() took leaves the front of the output |
| Proxy.Proxy.MuxPrepare | proxy/main.c:626-646 | pulling up on the multiplexed side returns credit to the client that the packet came from |
| Proxy.Proxy.MuxHangup | proxy/main.c:670-715 | losing the multiplexed output returns all credit to the clients |
| Proxy.Proxy.Purge | proxy/main.c:1006-1030 | freeing the closed endpoints empties their queues and returns the credit of every buffer in them |
| ProxySide.PurgeEach | proxy/main.c:536-554 | freeing changes closed endpoints and the credit of the others only: afterwards no closed endpoint owes anything |
| Proxy.Proxy.DemuxPacket | proxy/main.c:1363-1422 | a whole packet opens, feeds or closes just its own channel; the program ends if and only if its data is empty or exceeds the credit left |
| Proxy.Proxy.FindEndpoint | proxy/main.c:1308-1318 | the first linked endpoint with a channel id |
| Proxy.Proxy.CloseClients | proxy/main.c:1514-1589 | the walk that half-closes the clients when the multiplexed connection ends |
| Proxy.Proxy.RecvDemux | proxy/main.c:1514-1589 | a call of the receive loop is a series of enabled read and handle steps; a packet that it reads from the start never exceeds the credit |
| ProxyLink.EventOk | proxy/main.c:599-646 | every event keeps credit, queues and packet histories consistent |
| ProxyLink.SenderKeepsLink | proxy/main.c:1465-1511 | whatever the sender does, the bytes under way are the packets not handed on yet |
| ProxyLink.ReceiverKeepsLink | proxy/main.c:1514-1589 | whatever the receiver does, the bytes under way are the packets not handed on yet |
| ProxyNet.RunOk | proxy/main.c:1752-1818 | the invariant of both proxies and both streams holds in every run |
| ProxyRuns.ChannelsDeliverInOrder | proxy/main.c:1465-1589 | in every run, per channel and direction, the bytes written at the far end are an initial piece of those read at the near end |
| ProxyRuns.NothingIsLost | proxy/main.c:1465-1589 | once nothing is under way and a channel has drained, it has written exactly what was read at the other end |
| ProxyClose.OrderlyClose | proxy/main.c:718-785 | in every run without a hangup of a channel: once it has closed, exactly what the packets handed on carried for it has been written, and if its CLOSE has arrived, exactly what was read at the other end |
| ProxyEnds.ClosesChannels | proxy/main.c:1407-1412 | in every run, once its CLOSE was handed on, a channel is read no more and its output is closed or to be closed; it stops reading otherwise only after sending CLOSE or when the multiplexed connection ended |
| ProxyEnds.PreparesChannels | proxy/main.c:778-785 | in every run, before a poll a channel closes if it is to close and has nothing left, and has a buffer ready if it has anything |
| ProxyEnds.ClosingChannelCloses | proxy/main.c:718-785 | from every state of a run in which CLOSE was handed on for a channel, writing to its socket alone closes it, and then all that came for it is written unless it hung up before |
| ProxyEnds.HangupDiscards | proxy/main.c:670-715 | a hangup closes the output side and drops what was to be written, and reading goes on |
| ProxyRuns.PacketsArriveInOrder | proxy/main.c:1363-1422 | packets arrive in order and once, OPEN before DATA before CLOSE |
| ProxyRuns.CreditIsConserved | proxy/main.c:466-501 | in every run, credit left and payload queued make up the grant, for each client and for the multiplexed endpoint; so no client has more than its grant queued |
| ProxyRuns.CreditAssertion | proxy/main.c:614-617 | in every run, the assertion about a received packet holds if and only if the packet and all that is queued for the clients are within the grant |
| ProxyRuns.FreedSources | proxy/main.c:536-554 | in every run, no source of a buffer queued for a client or for the multiplexed connection is freed if and only if every closed endpoint, clients and the multiplexed one alike, has all its credit back |
| ProxyRuns.FreedForGood | proxy/main.c:536-554 | however a run goes on after closed endpoints were freed, no buffer queued anywhere names one of them unless one did at that moment |
| ProxyRuns.NeverBeyondThePacket | proxy/main.c:1528-1562 | the packet being assembled is never longer than its header says |
| ProxyRuns.BytesAreConserved | proxy/main.c:1514-1589 | packets handed on, the buffer, and what is unread are the bytes that arrived |
| ProxyRuns.PacketsComeOutWhole | proxy/main.c:1514-1589 | for any schedule of reads, encoded packets come out whole, in order and once |
| ProxyRuns.SizeAssertion | proxy/main.c:1540-1562 | the size assertion holds if and only if the size field does not overflow |
| ProxyRuns.AllClientsClosed | proxy/main.c:1514-1527 | exactly when the end of the multiplexed connection closes all clients |
| ProxyFailures.SecondClientStays | proxy/main.c:1570-1578 | a run after which the end of the multiplexed connection leaves a client open |
| ProxyFailures.SizeOverflows | proxy/main.c:1540-1552 | a header for which the assertion about the size fails |
| ProxyFailures.SourceIsFreed | proxy/main.c:536-554 | a run after which the source of a buffer queued for the multiplexed connection, a client, is freed |
| ProxyFailures.MuxIsFreed | proxy/main.c:1197-1203 | a run after which the source of a buffer queued for a client, the multiplexed endpoint, is freed although all clients have all their credit |
| ProxyFailures.CreditIsOverrun | proxy/main.c:614-617 | a run after which the assertion about the credit of a received packet fails |
| ContainerStore.NothingLeaks | server/container.c:98-131 | between calls a container exists just as long as something refers to it, and its count is exact |
| ContainerStore.TargetsLive | server/container.c:88-95 | whatever is held by an array or a process has not been freed |
| ContainerStore.ChildLevel | server/container.c:31-86 | a child is of a lower level than its container, so the graph has no cycles |
| ContainerStore.CleanShrinks | server/container.c:200-222 | once nothing reachable belongs to an owner, no teardown changes that |
| ContainerStore.ShrinksTrans | server/container.c:225-256 | teardown only lets go of things, however often it re-enters itself |
| ContainerStore.CountedTake | server/host.c:193-206 | a reference taken out of an array is neither lost nor doubled |
| Teardown.LastPutShrinks | server/container.c:98-131 | dropping the last reference tears down and frees just that container |
| Teardown.CascadesTrans | server/container.c:225-256 | what cascades destroy owns nothing reachable at their end, and they take no host off the list, however often they re-enter each other |
| Teardown.SparesTrans | server/container.c:225-256 | cascades compose: whatever set has everything that depends on it loses nothing outside |
| Teardown.DisownedCascades | server/container.c:209-217 | a command or process that lost its owner was destroyed with it, and holds nothing |
| Containers.Master.Get | server/container.c:88-95 | only a live container gains a reference |
| Containers.Master.Put | server/container.c:98-131 | the last reference takes the container and what only it held; the counts stay exact, what is destroyed owns nothing reachable, and no host leaves the list |
| Containers.Master.Init | server/container.c:31-86 | a new container is held by its parent's array alone |
| Containers.Master.Destroy | server/container.c:225-256 | the cascade ends; the container has left its parent, holds nothing, and nothing reachable belongs to it or to anything destroyed with it; no other host leaves the list |
| Containers.Master.RemoveChild | server/container.c:144-167 | the first entry in the parent's array goes, with its reference |
| Containers.Master.ReleaseOwned | server/container.c:200-222 | nothing below a container belongs to the owner any more |
| Containers.Master.Release | server/container.c:209-217 | what is released loses its owner; a command or process is destroyed by that |
| Containers.Master.AllChildren | server/container.c:173-197 | a snapshot of all children holds a reference to each |
| Containers.Master.Drain | server/host.c:156-171 | an array is emptied |
| Containers.Master.DrainLast | server/host.c:158-167 | the last entry of an array goes, without a parent, and a host loses the role it has on behalf of the array's container |
| Containers.Master.TakeAll | server/command.c:330-335 | an array is forgotten while the references of all its entries are kept |
| Containers.Master.DrainCopy | server/command.c:330-345 | an array that was copied is emptied, and the references that its entries had are dropped |
| Containers.Master.DestroyHook | server/command.c:207-224 | a process gives up its command |
| Containers.TakeOk | server/command.c:96-109 | taking an entry out of an array keeps shape and counts |
| HostRegistry.RegistryShrinks | server/host.c:209-225 | teardown keeps registered hosts unique, named and not destroyed |
| HostRegistry.FieldsShrinks | server/host.c:68-91 | a host has a role exactly when it has an owner, and is ready only with an agent, through any teardown |
| HostRegistry.CreatedRegistry | server/host.c:29-48 | a new host with a free name keeps the registry |
| HostRegistry.ClaimIsExclusive | server/host.c:101-119 | a claimed host goes to another container only after its owner was destroyed |
| Ownership.CleanEverywhere | server/container.c:200-222 | what the global context says about everything below it holds for each container that exists, between calls |
| Ownership.ClaimedOwners | server/dbus-host.c:559-622 | a claim makes nothing reachable that belongs to a destroyed container |
| Ownership.CreatedOwners | server/container.c:31-86 | neither does the creation of a container |
| HostRegistry.MovesTrans | server/host.c:124-139 | generations never fall and claims hold over any number of calls |
| HostRegistry.ClaimedRegistry | server/dbus-host.c:559-622 | a claim keeps the registry unless the global context claims a host whose name is registered |
| HostRegistry.NameFreeShrinks | server/host.c:228-239 | teardown never takes a free name |
| Handlers.CreateHost | server/dbus-host.c:172-202 | a host is created just if its name is free |
| Handlers.RemoveHost | server/dbus-host.c:211-229 | the first host with a name leaves the list, unless it is listed twice; with the registry in order, the name is free then |
| Handlers.NamesAreExact | server/host.c:228-239 | with the registry in order, a name stands for the only registered host that has it |
| Handlers.Reconnect | server/dbus-host.c:240-291 | an agent gets the host of its name back unless another agent has it, or registers a new one |
| Handlers.AgentReady | server/dbus-host.c:670-697 | the first host that the agent serves becomes ready, and its generation rises by one |
| Handlers.AgentDisconnected | server/host.c:132-139 | the host loses its agent and is not ready |
| Handlers.NameLost | server/main.c:232-264 | the first host that the name was the agent of is disconnected; a host has it as its agent still if and only if two had it |
| Handlers.AddHost | server/dbus-host.c:559-622 | a host is claimed exactly if the role is well-formed and free and the host unclaimed |
| Handlers.AcceptsIff | server/dbus-host.c:559-622 | a claim is accepted if and only if the role is well-formed, no container from the claimant upwards has a host of it, and the host is free or the claimant's in that role |
| Handlers.FindRole | server/container.c:358-370 | whether a container, or one above it, has a host of this role |
| Handlers.RoleIsAbove | server/container.c:358-370 | a role that is taken is that of a host of the container or of one above it |
| Handlers.RoleAboveIsTaken | server/container.c:358-370 | and the other way round |
| Handlers.IdentifierValid | server/dbus-container.c:113-122 | the loop accepts letters, digits and underscores, and no digit first |
| Handlers.Run | server/dbus-host.c:393-460 | a ready host gets a process that belongs to the command and holds it |
| Handlers.CreateCommand | server/dbus-command.c:50-87 | a command belongs to the container that it is created in |
| Handlers.CreateTest | server/dbus-test.c:48-83 | a test is created just if its name is well-formed and new among its siblings |
| MasterRuns.Serve | server/dbus-host.c:172-697 | every call keeps references exact, roles and claims; it changes nothing if it names what does not exist; the registry stays in order if and only if it does not list a host twice |
| MasterRuns.MovesOverRun | server/dbus-host.c:172-697 | from any state of a run to any later one, claims last until the host or its owner is destroyed, generations never fall, and nothing comes back to life |
| MasterRuns.ClaimsOverRun | server/host.c:101-119 | over a run, a host passes to another owner only after the first was destroyed, and then nothing reachable belongs to that |
| MasterRuns.NothingLeaksOverRun | server/container.c:98-131 | in every state of a run, a container exists just as long as something refers to it, and its count is exact |
| MasterRuns.RegistryOverRun | server/dbus-host.c:559-622 | the registry stays in order over a run if and only if no call lists a host twice |
| MasterRuns.Run | server/dbus-host.c:172-697 | every series of calls, from the empty master on, goes through such states, with exact references, and nothing reachable belongs to a destroyed container in any of them |
| MasterRuns.ListedTwice | server/dbus-container.c:104-110 | a client claims a registered host for the global context, and the list has it twice |
| Handlers.Delete | server/dbus-container.c:227-253 | a deleted container has left one place in its parent, holds nothing, and nothing reachable belongs to it; no other host leaves the list |
| Handlers.DeletedGone | server/dbus-container.c:227-253 | a deleted container that its parent listed once is gone from there |
| Handlers.ListedOnce | server/container.c:31-86 | everything but hosts is listed once; hosts are while the registry is in order |
| Deletion.NoneLeftBehind | server/container.c:200-222 | between calls, no command or process that exists belongs to a destroyed container, reachable or not |
| Deletion.DestroyedIsFreed | server/container.c:98-131 | between calls, whatever was destroyed is freed and held by nothing, but for hosts that are still listed |
| Deletion.GoneIsClosed | server/container.c:225-256 | with what is destroyed goes what it owned, and what it alone held |
| Deletion.DeletedExactly | server/container.c:225-256 | a deletion destroys the smallest such set with the container in it, and changes nothing else |
| Deletion.DeletionsOverRun | server/dbus-container.c:227-253 | that is so for every deletion in every run |
| Deletion.OwnedGoToo | server/command.c:238-243 | the commands and processes of a deleted container are in no array any more, and freed |
| Handlers.DeletedHostStays | server/host.c:209-225 | a host that is listed twice stays listed, destroyed, when it is deleted |
| XmlText.TrimEmptyLines | dborb/util.c:1292-1322 | the two loops compute the trimmed text |
| XmlText.TrimParts | dborb/util.c:1292-1322 | trimming keeps the last line of the leading blanks, the text, and the first line end of the trailing ones |
| XmlText.TrimBlanks | dborb/util.c:1292-1322 | blanks are spaces, tabs and line ends |
| XmlTree.TrimKeepsText | dborb/util.c:1292-1322 | trimming twice is trimming once; it adds no character, and text stays text |
| XmlTree.TrimTakesSpace | dborb/util.c:1292-1322 | trimming keeps every character that is not white space, in order |
| XmlTree.NormOnce | dborb/xml-reader.c:499-584 | the normal form of a tree is its own normal form |
| XmlRoundTrip.TextEscape | dborb/xml-reader.c:703-746 | escaped text is read as the text |
| XmlRoundTrip.TextToken | dborb/xml-reader.c:499-584 | text between tags is one token, trimmed |
| XmlRoundTrip.NameToken | dborb/xml-reader.c:588-663 | a legal name is one token |
| XmlRoundTrip.AttrsStep | dborb/xml-reader.c:411-456 | printed attributes are read back, without empty values |
| XmlRoundTrip.TextOfNode | dborb/xml-writer.c:243-263 | the layout that the writer adds to text is what the reader trims |
| XmlRoundTrip.ElementStep | dborb/xml-reader.c:246-402 | a printed element is read as a child in normal form |
| XmlRoundTrip.ChildrenStep | dborb/xml-writer.c:264-275 | printed children are read as children in normal form, in order |
| XmlComments.CommentToken | dborb/xml-reader.c:669-694 | a comment ends at the first `-->`, and the reader takes no notice of it |
| XmlComments.OpenComment | dborb/xml-reader.c:669-694 | a comment without an end is an error |
| XmlRoundTrip.NotedReadsBack | dborb/xml-reader.c:499-584 | reading a printed document with any comments between its tags gives its normal form |
| XmlRoundTrip.ReadsBack | dborb/xml-writer.c:115-119 | reading a printed document gives its normal form |
| XmlRoundTrip.RoundTrip | dborb/xml-writer.c:215-316 | a legal tree survives printing and reading if and only if it is in normal form |
| XmlRoundTrip.EmptyIsLost | dborb/xml-reader.c:411-456 | a document that does not survive: an empty attribute value and blank text are lost |
| XmlRoundTrip.NormalIff | dborb/xml-reader.c:499-584 | what the normal form is |
| XmlRoundTrip.SecondPass | dborb/xml-writer.c:215-316 | one print and read reaches a fixed point |
| XmlRoundTrip.PrintInjective | dborb/xml-writer.c:215-275 | different documents in normal form print differently |
| XmlTree.Example | dborb/xml-writer.c:215-275 | what a printed document looks like |
| XmlSyntax.FreeAttribute | dborb/xml-reader.c:411-456 | an attribute may have white space around its tokens and quotes of either kind |
| XmlSyntax.OpenQuote | dborb/xml-reader.c:588-663 | a quoted string that does not end is an error |
| XmlSyntax.NamedEntity | dborb/xml-reader.c:703-746 | the names of entities may be in upper or lower case |
| XmlSyntax.NumericEntity | dborb/xml-reader.c:703-746 | a character may be given by its number, cut to a byte |
| XmlSyntax.NoEntity | dborb/xml-reader.c:703-746 | any other entity is an error |
| XmlSyntax.DoctypeSkipped | dborb/xml-reader.c:246-402 | a document type declaration is skipped |
| XmlSyntax.InstructionSkipped | dborb/xml-reader.c:346-376 | a processing instruction is skipped |
| XmlSyntax.EmptyPair | dborb/xml-reader.c:246-402 | a start tag and an end tag with nothing between them are an empty element |
| XmlSyntax.CommentInText | dborb/xml-reader.c:549-575 | of a text with a comment in it, only what comes after stays |
| XmlSyntax.WrongEnd | dborb/xml-reader.c:319-344 | the end tag of another element is an error |
| XmlSyntax.WrongTagEnd | dborb/xml-reader.c:297-376 | so is an element that ends like an instruction, and the other way round |
| XmlSyntax.Unfinished | dborb/xml-reader.c:378-384 | so is the end of the input within an element |
| XmlWriter.Writer.NodeOutput | dborb/xml-writer.c:215-275 | the writer prints a node as specified, piece by piece |
| XmlWriter.Writer.DocumentOutput | dborb/xml-writer.c:114-119 | the writer prints a document as specified |
| XmlWriter.Writer.EscapeEntities | dborb/xml-writer.c:278-316 | the buffer sized in the first pass holds the escaped text |
| XmlReader.Reader.GetC | dborb/xml-reader.c:997-1027 | characters come one by one |
| XmlReader.Reader.SkipSpace | dborb/xml-reader.c:752-766 | exactly the leading white space is taken |
| XmlReader.Reader.ExpandEntity | dborb/xml-reader.c:703-746 | an entity becomes the character that it stands for |
| XmlReader.Reader.DiscardComment | dborb/xml-reader.c:669-694 | a comment is skipped up to its end |
| XmlReader.Reader.GetTokenInitial | dborb/xml-reader.c:499-584 | the reader finds the specified token between tags |
| XmlReader.Reader.GetTokenTag | dborb/xml-reader.c:588-663 | the reader finds the specified token inside a tag |
| XmlReader.Reader.GetToken | dborb/xml-reader.c:462-493 | the state decides which tokens are possible |
| XmlReader.Reader.GetTagAttributes | dborb/xml-reader.c:411-456 | the attribute loop collects the specified attributes |
| XmlReader.Reader.ProcessElementNested | dborb/xml-reader.c:246-402 | the recursive reader builds the specified tree, or fails |
| XmlReader.Reader.ProcessDocument | dborb/xml-reader.c:180-199 | reading a document is parsing its text |
| VarArrays.SetVarLookup | dborb/util.c:427-441 | setting a value changes that value only |
| VarArrays.SetInPlace | dborb/util.c:427-441 | a value is set where its name is, or at the end |
| CNumbers.NumberDecimal | dborb/dbus-common.c:853-907 | a number printed in decimal is read back |
| CNumbers.NumberHex | dborb/dbus-common.c:853-907 | a byte printed in hexadecimal is read back, with its sign extension |
| CNumbers.NumberSpace | dborb/dbus-common.c:918-957 | white space and a plus sign before a number mean nothing |
| CNumbers.NumberOctal | dborb/dbus-common.c:918-957 | after a zero, digits are octal |
| CNumbers.StrtoulDecimal | dborb/dbus-common.c:918-957 | what does not fit 64 bits becomes the largest number, and negative ones count down |
| CNumbers.StrtolDecimal | dborb/dbus-common.c:918-957 | a signed number that does not fit 64 bits becomes the nearest one |
| CNumbers.NoNumber | dborb/dbus-common.c:918-957 | anything else after the digits makes it no number |
| Schema.ParseFormat | dborb/util.c:990-1034 | a number's name stands for the number if the names differ |
| SchemaRoundTrip.WithBitSets | dborb/dbus-xml.c:593 | or-ing a bit into a number sets that bit and no other |
| SchemaRoundTrip.BitsOfNodes | dborb/dbus-xml.c:579-598 | the children printed for a bitmap are read as the bits that their names stand for, or not at all |
| SchemaRoundTrip.CutBits | dborb/dbus-xml.c:683-690 | which bits a number of some kind must come back with to be the same |
| SchemaRoundTrip.BitmapRoundTrip | dborb/dbus-xml.c:740-762 | a bitmap survives if and only if the names of its bits say which bits these are, and a wide one has no others |
| SchemaRoundTrip.CarefulBitmap | dborb/dbus-xml.c:740-762 | bits with different names survive |
| SchemaRoundTrip.EnumRoundTrip | dborb/dbus-xml.c:764-783 | a number of an enumeration survives if and only if 32 bits hold it and what is printed for it stands for the same number |
| SchemaRoundTrip.CarefulEnum | dborb/util.c:1004-1020 | what is printed stands for the same number if the names differ and none begins with a digit |
| SchemaRoundTrip.ScalarRoundTrip | dborb/dbus-xml.c:672-793 | what a conforming scalar comes back as, and when it is the same |
| SchemaRoundTrip.ItemsRoundTrip | dborb/dbus-common.c:1007-1149 | the elements of an array survive if and only if they are strings, paths or bytes |
| SchemaRoundTrip.UnionRoundTrip | dborb/dbus-xml.c:1180-1270 | what a discriminated union comes back as, and that its kind must not be overwritten |
| SchemaRoundTrip.DictsRoundTrip | dborb/dbus-xml.c:854-991 | an array of dicts survives if and only if each of them does |
| SchemaRoundTrip.EntriesRoundTrip | dborb/dbus-xml.c:999-1150 | the entries of a dict survive in order if and only if each of them does |
| SchemaRoundTrip.RoundTripInto | dborb/dbus-xml.c:501-567 | what every conforming variant comes back as, and what must be kept for that |
| SchemaRoundTrip.RoundTrip | dborb/dbus-xml.c:501-567 | a conforming variant survives if and only if all that matters is kept and it has no object path outside an array |
| SchemaFailures.WideEnum | dborb/dbus-xml.c:764-783 | a number of 33 bits in an enumeration comes back as 0 |
| SchemaFailures.NamedAlike | dborb/util.c:990-1002 | of two names that differ in case, the second comes back as the first |
| SchemaFailures.NamedByDigits | dborb/util.c:1004-1020 | a number without a name comes back as the one that it is the name of |
| SchemaFailures.UnnamedBit | dborb/dbus-xml.c:748-759 | a bit without a name is lost |
| SchemaFailures.WideBitmap | dborb/dbus-xml.c:593 | bit 31 of a wide number brings the higher ones with it |
| SchemaFailures.NestedUnions | dborb/dbus-xml.c:1180-1270 | a union in a union with the same discriminant is printed and cannot be read |
| SchemaFailures.LonePath | dborb/dbus-common.c:918-922 | an object path on its own comes back as a string |
| SchemaFailures.FlagValue | dborb/dbus-xml.c:676-681 | a flag comes back as 0 |
| SchemaFailures.NumberArray | dborb/dbus-xml.c:949-957 | an array of numbers other than bytes is not printed |
| SchemaText.ReadPrinted | dborb/dbus-xml.c:411-440 | what is read from a printed document is what its element's normal form converts to |
| SchemaText.EnumBack | dborb/dbus-xml.c:764-783 | a number of an enumeration survives in a text if and only if 32 bits hold it and what is left of the text after trimming stands for the same number |
| SchemaText.PlainBack | dborb/dbus-xml.c:785-793 | numbers survive in a text, strings if and only if they are not blank and their own trimmed form, object paths not at all |
| SchemaText.ItemsBack | dborb/dbus-common.c:1007-1149 | array elements survive in a text if and only if they are bytes, or strings or paths of that form |
| SchemaText.UnionBack | dborb/dbus-xml.c:1180-1270 | a union survives in a text if and only if its kind is not empty and not overwritten, and its content survives |
| SchemaText.DictsBack | dborb/dbus-xml.c:854-991 | an array of dicts survives in a text if and only if each of them does |
| SchemaText.EntriesBack | dborb/dbus-xml.c:999-1150 | the entries of a dict survive in a text, in order, if and only if each of them does |
| SchemaText.LegalXml | dborb/dbus-xml.c:534-567 | legal names and texts make a legal XML element |
| SchemaText.RoundTrip | client/main.c:431-441 | a conforming variant of legal names and texts survives being converted, printed, read and converted back if and only if all of it is what text can hold |
| SchemaText.TextIsExact | client/main.c:431-441 | two such variants that text can hold are equal if their texts are |
| SchemaText.EmptyText | dborb/xml-reader.c:499-584 | an empty string survives in an XML tree and is lost in its text |
| SchemaValid.GroupsMean | dborb/dbus-xml.c:1076-1116 | a required group has a child, an exclusive one not two |
| SchemaValid.WrongIsRefused | dborb/dbus-xml.c:1021-1116 | a dict with an invalid known child, without a mandatory one, or with a group that has too few or too many is refused, and so are text where there is no type, and an invalid element |
| SchemaValid.RefusedIsWrong | dborb/dbus-xml.c:1021-1116 | for dicts and arrays there is no other reason |
| SchemaValid.AcceptedConverts | dborb/dbus-xml.c:463-528 | what is valid can be converted, if its numbers are numbers |
| SchemaValid.ScalarsAccepted | dborb/dbus-xml.c:672-735 | scalars other than flags are valid and readable if and only if they can be converted |
| SchemaValid.NumbersRead | dborb/dbus-common.c:918-957 | what every kind of number makes of a number in decimal |
| SchemaValid.EnumTexts | dborb/util.c:1004-1020 | a text that is no name must be a number of 32 bits |
| SchemaValid.UnknownChild | dborb/dbus-xml.c:999-1018 | a child that the type does not know makes no difference |
| SchemaValid.UnknownEntry | dborb/dbus-xml.c:1122-1150 | neither does an entry of a dict |
| SchemaValid.UnknownKind | dborb/dbus-xml.c:1180-1270 | a union of an unknown kind is refused both ways |
| SchemaValid.Looks | dborb/dbus-xml.c:534-567 | what the XML of a dict, an array, a union and an enumeration looks like |
| SchemaValid.ScalarsPrinted | dborb/dbus-common.c:853-907 | what scalars look like in XML |
| SchemaXml.SerializeXml | dborb/dbus-xml.c:501-528 | the conversion from XML, type by type |
| SchemaXml.SerializeXmlBitmap | dborb/dbus-xml.c:579-598 | the loop over the children collects their bits |
| SchemaXml.SerializeXmlArray | dborb/dbus-xml.c:854-904 | the loop over the children collects the elements |
| SchemaXml.SerializeXmlDict | dborb/dbus-xml.c:999-1018 | the loop over the children collects the entries that the type knows |
| SchemaXml.DeserializeXml | dborb/dbus-xml.c:534-567 | the conversion to XML, type by type |
| SchemaXml.DeserializeXmlArray | dborb/dbus-xml.c:910-991 | the loop over the elements makes the children |
| SchemaXml.DeserializeXmlDict | dborb/dbus-xml.c:1122-1150 | the loop over the entries makes the children that the type knows |
| SchemaXml.Validator.Validate | dborb/dbus-xml.c:463-495 | a node is accepted if and only if it is valid, whatever the shared counters held |
| SchemaXml.Validator.ValidateDict | dborb/dbus-xml.c:1021-1116 | a dict is accepted if and only if its known children are valid, none is missing, and its groups are respected |
| SchemaXml.Validator.CountGroups | dborb/dbus-xml.c:1076-1092 | the counters of a dict's groups count its own children |
| XPath.Parser.BuildExpr | dborb/xpath.c:196-344 | the loop with its recursion builds the specified expression and ends |
| XPath.Parser.ParseExpression | dborb/xpath.c:104-133 | an expression is accepted if all of it was read |
| XPath.BuildSound | dborb/xpath.c:301-344 | what is built is well nested and spells out the tokens that were read |
| XPath.BuildComplete | dborb/xpath.c:301-344 | a well-nested tree, spelled out, is read as itself |
| XPath.ParseIff | dborb/xpath.c:196-344 | exactly the well-nested trees without misplaced white space are accepted |
| XPath.BlankBeforeEnd | dborb/xpath.c:196-210 | an expression with a blank before its end, or before a closing parenthesis, is refused |
| XPath.Grouping | dborb/xpath.c:36-43 | of two operators, the second goes first if and only if it is in a later class of: or, and, comparisons, sums, products |
| XPath.SumOfProduct | dborb/xpath.c:1234-1275 | a product in a sum goes first, and sums go from left to right |
| XPath.StripKeepsValue | dborb/xpath.c:301-344 | whatever the operators mean, the expression built has the value of the tree that was read |
| XPath.Unambiguous | dborb/xpath.c:36-43 | no two well-nested trees are spelled alike |
| ObjectTree.SplitJoin | dborb/dbus-object.c:192-238 | splitting a path gives the names that were joined |
| ObjectTree.SplitAny | dborb/dbus-object.c:192-238 | a path with any number of slashes is split into the names between them |
| ObjectTree.SplitAt | dborb/dbus-object.c:192-238 | a slash separates names whatever stands around it |
| ObjectTree.RelativeIff | dborb/dbus-object.c:471-484 | a path is below an object if it is the object's, or goes on from it with a slash |
| ObjectTree.RelativeJoin | dborb/dbus-object.c:471-484 | the path of an object leads from its ancestor to it |
| ObjectTree.MarkFind | dborb/dbus-client.c:820-829 | everything below an object is marked stale, and nothing else |
| ObjectTree.RefreshFind | dborb/dbus-object.c:192-270 | looking up or creating an object makes it and what leads to it, and clears only its own mark |
| ObjectTree.PurgeFind | dborb/dbus-client.c:832-846 | what stays has no stale object on its way |
| Mirror.EnumeratePaths | dborb/dbus-server.c:585-620 | the listing gives the path of every object that it names |
| Mirror.PublishedIff | dborb/dbus-server.c:585-620 | the listing names exactly the objects with interfaces |
| Mirror.RefreshAllFind | dborb/dbus-client.c:520-583 | what the client has after taking over the listing, and what is stale then |
| Mirror.ManagedTidy | dborb/dbus-object.c:58-98 | every object's path is its parent's path, a slash, and its name |
| Mirror.MirroredIff | dborb/dbus-client.c:520-605 | which objects the client ends up with |
| Mirror.NothingExtra | dborb/dbus-client.c:832-846 | the mirror has nothing that the server does not have |
| Mirror.MirrorExact | dborb/dbus-client.c:520-605 | exactly when the client's objects are the server's |
| Mirror.UnpurgedIff | dborb/dbus-client.c:520-605 | without purging, the client keeps what it had and adds what leads to a listed object |
| Mirror.ManagedKeeps | dborb/dbus-client.c:520-605 | an object that the client knew and still has is the same one |
| Mirror.LostWhenKnown | dborb/dbus-client.c:820-846 | a known object that is not listed goes with all below it |
| Mirror.KnownIsLost | dborb/dbus-client.c:820-846 | a tree that a new client mirrors exactly, and a client that knows it loses |
| MirrorObjects.Object.MarkStale | dborb/dbus-client.c:820-829 | the objects are marked as specified |
| MirrorObjects.Object.PurgeStale | dborb/dbus-client.c:832-846 | stale children are unlinked, the others purged below |
| MirrorObjects.Object.Create | dborb/dbus-object.c:192-270 | the walk down the names creates what is missing |
| MirrorObjects.Object.Enumerate | dborb/dbus-server.c:585-620 | the walk over the children lists what has interfaces |
| MirrorObjects.Object.GetManagedObjects | dborb/dbus-client.c:520-605 | mark, take over up to the first path that is not below the object, purge if all were |
| MirrorObjects.Object.RefreshChildren | dborb/dbus-client.c:848-860 | a refresh gives an exact mirror under the exact condition |
| Environ.LessIff | server/environ.c:142-156 | names are in the order of their characters, a beginning before what goes on from it |
| Environ.SkipDups | server/environ.c:124-139 | duplicates are skipped, and no variable is ever missed |
| Environ.Round | server/environ.c:142-156 | the next variable is the smallest, from the first environment that has it |
| Environ.MergeTapes | server/environ.c:158-192 | the merge ends, is sorted, and gives every name the value of the first environment that defines it |
| Environ.SortedUnique | server/environ.c:158-192 | there is only one such result |
| ProcessEnv.Env.SetEnv | server/environ.c:57-62 | setting a variable changes that variable only |
| ProcessEnv.Env.UnsetEnv | server/environ.c:64-69 | an unset variable still shadows |
| ProcessEnv.Env.GetEnv | server/environ.c:72-80 | a variable is looked up |
| ProcessEnv.Env.Sort | server/environ.c:105-112 | sorting changes no variable |
| ProcessEnv.Merge | server/environ.c:158-192 | merging environments is layering them |
| ProcessEnv.MergeEnvironment | server/container.c:279-310 | the environments of a container and its ancestors are layered below the result |
| ProcessEnv.MergeTwice | server/container.c:279-310 | merging a merged environment with more layers is merging all at once |
| ProcessEnv.ApplyContexts | server/dbus-host.c:428-430 | a process sees its own variables, its command's and its ancestors', then its host's and its ancestors' |
| Timers.Later | dborb/timer.c:121-128 | a deadline is normalised and as far ahead as asked |
| Timers.Until | dborb/timer.c:97-101 | the remaining wait, rounded down to milliseconds |
| Timers.TimerList.Arm | dborb/timer.c:118-137 | the list stays sorted, equal deadlines in the order of arming |
| Timers.TimerList.Disarm | dborb/timer.c:140-152 | one timer goes, the others keep their places |
| Timers.TimerList.RearmTimer | dborb/timer.c:78-86 | one timer moves to where its new deadline belongs, the others keep their places |
| Timers.TimerList.RunActions | dborb/timer.c:26-86 | what callbacks do to the list, one action after the other |
| Timers.TimerList.NextTimeout | dborb/timer.c:89-115 | the wait returned is that for the first timer, in whole milliseconds, and undercuts no other; each callback ran when its timer was first and due, and did what it does; if callbacks arm at least a millisecond ahead, the loop ends and due timers run in order, each unless cancelled |
| Traversal.GetNext | dborb/xml.c:578-606 | right, or up; then down to the left |
| Traversal.WalkOrder | dborb/xml.c:578-606 | the walk is recursive post-order and ends |
| Traversal.Walk | dborb/xml.c:578-606 | exactly what is strictly below the top is visited, once each |
| Traversal.WalkInOrder | dborb/xml.c:578-606 | children come before their parents, and siblings from left to right |
| Traversal.LeafWalk | dborb/xml.c:578-606 | what happens at a top without children |
| Traversal.LeafWalkLeaves | dborb/xml.c:578-606 | a walk that leaves a childless top for its sibling |
| Quoting.QuoteString | dborb/util.c:2412-2435 | a string is quoted as specified |
| Quoting.UnquoteString | dborb/util.c:2438-2477 | one item is read as specified |
| Quoting.UnquoteQuote | dborb/util.c:2412-2479 | a quoted string is read back, and one separator with it |
| Quoting.UnquoteJoin | dborb/util.c:2438-2479 | a joined list is read back without its empty items |
| Quoting.UnquotePieces | dborb/util.c:2438-2477 | an item put together from plain, double-quoted and single-quoted pieces, after any separators, is what the pieces mean |
| Quoting.OpenQuote | dborb/util.c:2463-2479 | a quote that is not closed is no item, and nothing is taken |
| Quoting.QuotedWhenNeeded | dborb/util.c:2412-2435 | quotes are used just where separators or quotes make them necessary |
| Quoting.RoundTrip | dborb/util.c:2412-2479 | a list survives if and only if it has no empty item |
| Quoting.EmptyItemIsLost | dborb/util.c:2438-2479 | an empty item between two others is lost |

## Left out

- Sockets, poll, fork and exec, signals, terminals, file access, libdbus, hashing, logging, option parsing and configuration: a read is any non-empty piece of what is there, a call arrives as a method call.
- The proxy's liveness: a packet that is complete when the read budget runs out waits for the next event, and a half-closed endpoint polls the wrong descriptor (proxy/main.c:823-826).
- The delayed connection of a channel's downstream socket: an accepted channel is connected at once.
- The wrap-around of channel ids after 2^32 clients, and the reuse of the memory of endpoints: an endpoint that was unlinked keeps its number and counts as not alive.
- Proxy.Proxy.DemuxPacket: reports the end of the program when the data of a packet is empty, where the source ends a little later, at the next poll (proxy/main.c:629, 798).
- Proxy.Proxy.Accept: once the multiplexed endpoint is gone, the program connects another one for each client (proxy/main.c:1724-1740), where the model still queues the OPEN packet.
- Proxy.Proxy.Purge: an endpoint that was freed keeps its record, and with it the packet that it was assembling; credit that comes back to it later, which in the program writes to freed memory, is added to that record. ProxyRuns.FreedSources says exactly when there will be any.
- Proxy.Proxy.RecvMux: a client whose sink, the multiplexed endpoint, was freed still reads and queues there (proxy/main.c:1465-1511); the model does the same at an endpoint that is closed.
- Buffers that were queued are values, so that reuse of their memory is not modelled.
- Containers.Master.DrainCopy: clears the parent pointers of all entries before the first one loses its reference, where the source does so one by one; the difference shows only in a warning.
- Handlers.RemoveHost: clears the parent pointer before the entry leaves the list, not after.
- Containers.Master.DrainLast: asks of an array of commands that none of them belongs to its container any more, which the release before it sees to (server/container.c:244-249).
- Containers.Master.DestroyHook: clears the pointer to the command before its reference is dropped, not after.
- Monitors, files, capabilities, event logs and the D-Bus objects of containers: a container whose teardown has begun has no object path any more and cannot be named by a call.
- That a host's parent pointer says which array holds it: server/host.c:165 clears it whenever any array with the host is destroyed.
- Handlers.Reconnect: uuids are numbers, and the one that is generated is a parameter.
- XML entities inside attributes, the content of DOCTYPE declarations, non-ASCII text, NUL characters in the input, line counting, and the hash and in-memory writers, which cut what they print at 256 bytes.
- XmlReader.Reader.ProcessElementNested: builds the tree as a value and gives it back, instead of linking nodes into it.
- SchemaXml.SerializeXml: variants and nodes are built as values; doubles, structs, notations and arrays of variants are not modelled.
- Callbacks of the validator and the prompting for missing elements.
- XPath beyond integers, parentheses and infix operators: axes, names, functions, predicates, strings, evaluation, and how characters make up tokens. The operators `<=` and `>=` are never read as such (dborb/xpath.c:1510-1529).
- MirrorObjects.Object.Create: walks down by recursion and clears the stale mark of the object at the end itself, where the source returns a pointer to it.
- Interfaces, properties, classes and handles of mirrored objects, failing property reads, the limit of 256 bytes for a path, and a top object whose path ends in a slash.
- ProcessEnv.ApplyContexts: takes the environments of the two chains of containers as lists; that a container without the feature has none is left to the caller.
- Environ.MergeTapes: qsort is taken to give the sorted arrangement of variables with different names.
- Timers.TimerList.NextTimeout: stops after a given number of callbacks, where the program goes on as long as timers are due; timer numbers do not wrap around.
- Traversal: a node is named by its position below the root, so the lists may not change during a walk.
- Quoting: no separators at all are the empty set of separators; strings hold no NUL.
- The agent's file cache, bitfields, array copies, monitors and test-case internals.
