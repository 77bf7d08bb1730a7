# Networking course programs, modelled and proved

This project models three programs of the repository and proves what they are for:

- **net_lab7**, a single-threaded SOCKS5 proxy around `select`: its resolver (encoding a host name,
  reading names with compression, walking two answer records), its two-phase handshake, its relay with
  one slot for each direction, and the event loop that moves clients between three lists while going
  through them;
- **net_lab5**, a chat service over an append-only log, read by paged polling and pushed to channels;
- **net_lab1**, a multicast member list kept by ticks and packets.

The standards involved are RFC 1035 (sections 2.3.4, 3.1, 4.1.1 to 4.1.4) and RFC 1928 (sections 3 to 5).

## How it is built

Every object the programs update in place is a class (`DNSResolver`, `SOCKS5Connecter`, `Connection`,
`Server`, `RESTService`, `Updater`, `MulticastApp`, `ClientInfo`), with the loops of the source. Each
method is proved against a function of the old state (`Exchange`, `Sweep`, `HandshakePass`, `Step`, ...),
and the lemmas state what the programs promise about those functions: over single calls, over whole runs,
and against independent references such as the label-wise decoder of `DnsName.dfy` or the per-peer age of
`Membership.dfy`.

The kernel is the only source of non-determinism: `accept`, `recv`, `send`, `socket` and `select` answer
arbitrarily within what their interfaces allow. A new descriptor is one that is not open, `select` answers
some subset of what it was asked, and `recv` hands over at most as many bytes as there is room for.

| file | content |
|---|---|
| `Wrappers.dfy`, `Bytes.dfy`, `Sockets.dfy` | optional values, bytes, C strings, kernel answers |
| `DnsName.dfy` | names label by label: the reference |
| `DnsScan.dfy` | the scanning loop of `ReadName`: what it collects and when it ends |
| `DnsCodec.dfy` | `ReadName` and `ChangetoDnsNameFormat`, byte by byte and in place |
| `DnsMessage.dfy` | the query, the records of a reply, the usual alias-and-address reply |
| `Resolver.dfy` | the resolver as a value, over runs, and as a class |
| `Handshake.dfy` | the SOCKS5 handshake |
| `Relay.dfy` | the relay connection |
| `Proxy.dfy` | the event loop as functions of the proxy's state |
| `ProxyInvariant.dfy`, `ProxySteps.dfy`, `ProxyRun.dfy` | its invariant, kept by every step, round and run |
| `ProxyTheorems.dfy`, `ProxyProgress.dfy`, `ProxyGuarantees.dfy` | masks, stages, order, back-pressure, and the guarantees over whole runs |
| `ProxyCalls.dfy`, `ProxyNewcomers.dfy` | how rounds call their entries, those made in the round included, and what becomes of dropped handshakes |
| `ProxyHistory.dfy` | what passes for one client before its relay exists, in order |
| `ProxyRounds.dfy` | what a round makes of each entry, by the entry's own fields: masks, drops, accepts, moves, calls |
| `ProxyLiveness.dfy`, `ProxyServed.dfy` | what further rounds can do after any run: which handshakes get on, that another client can be accepted, relayed to where it asks and have its bytes carried; and when an exception leaves the loop |
| `Server.dfy` | the list-editing loops of the server |
| `ChatLog.dfy`, `ChatClient.dfy`, `ChatService.dfy` | paging, the polling client, the service's handlers |
| `Posting.dfy` | posts whose steps interleave |
| `Membership.dfy`, `Multicast.dfy` | the member list against its history |

## Findings

- `ReadName` agrees with RFC 1035 exactly on names whose content bytes are 1 to 191
  (`DnsScan.ScanAgreesIff`). Its scanning loop runs for ever exactly when it gets through one iteration more
  than the buffer has bytes, which is when it comes back to a position (`DnsScan.RunsForEverIff`); pointers
  that go strictly before their own stretch always let it end (`DnsScan.BackwardJumpsEnd`), a pointer into its
  own stretch never does (`DnsScan.JumpIntoOwnStretchNeverEnds`).
- The packet that is sent asks for the host, as RFC 1035 reads it, exactly when the host has a wire form: every
  label, a final dot aside, has 1 to 63 bytes, and all of them fit a name (`DnsMessage.QueryAsksIff`). An empty
  label other than the one behind a final dot cuts the query, so that `a..b` is asked for as `a`
  (`DnsMessage.QueryCutShort`, `DnsMessage.DoubleDotAsksForLess`); a label of 64 to 191 bytes makes it
  unreadable (`DnsMessage.QueryUnreadable`, `DnsMessage.LongLabelUnreadable`).
- A reply with one answer makes the code walk over bytes behind the message. On zeroed memory that goes well
  and the address is the right one (`Resolver.SingleAnswerReceived`).
- The scratch array of `ChangetoDnsNameFormat` is one byte shorter than the text put into it
  (net_lab7/DNSResolver.cpp:142-144). The model's scratch text has the byte.
- When a relay is closed, a direction has delivered all it received exactly when every send made in that
  direction fails or takes all that is in the slot at that moment, and the slot is empty at the close
  (`Relay.ClosedLosslessIff`; for every relay any run has closed, `ProxyGuarantees.ClosedLosslessIff`). The code
  drops the rest of a partial send, and at the close whatever waits in a slot: if the forwarding socket gives a
  byte and the client then ends its stream, no send cuts anything off and the byte is lost
  (`Relay.HalfCloseLosesPending`, `ProxyGuarantees.HalfClosedIsSwept`).
- A request for a host name is read right, for every port and whatever the buffer held, exactly when the first
  `recv` hands over the whole greeting and nothing else, and the second one the whole request
  (`Handshake.CutServesIff`): a client that sends both in one segment, or whose request comes in two, is not
  served what it asked for.
- A listed handshake gets to a resolver or a relay in some further rounds exactly if it has not set `drop`, as
  long as a descriptor below 1024 is free (`ProxyLiveness.GetsOnIff`); one that has stays in the list as it is,
  with its client's descriptor open, over every further run (`ProxyCalls.DroppedStays`).
- A request is answered 7 or 8 when its version, command or address type is not supported
  (`Handshake.AnyRequestAnswered`), and then goes on exactly like a granted one
  (`Handshake.EveryRequestGoesOn`). A client that hangs up during its handshake gets a relay to nowhere
  (`ProxyServed.HangUpLeaves`).
- After a reply without answers, or a failed receive, the relay is made to whatever the storage of the address
  held before (`Resolver.OneQueryOneReply`, `ProxyRounds.ResolvingsEach`).
- Relays made in a round are called in that round although they have asked for nothing. One made from a handshake
  finds its client readable exactly if that handshake has read in the very same call, so that `recv` waits on a
  blocking socket for data already taken; one made from a resolver never does, and finds its own socket readable
  exactly if it was given the descriptor of a resolver closed in that pass (`ProxyNewcomers.RelaysCalled`). Both
  happen (`ProxyNewcomers.ReadAgainUnasked`, `ProxyNewcomers.ClosedDescriptorComesBack`).
- A client that polls a log asks for the message behind a page exactly when that one's number is an int; after
  any page that ends at or behind message 2147483647 it is given the first page again
  (`ChatLog.PollStartsOver`, `ChatLog.NextOffsetIff`).
- Interleaved posts share a number exactly when whole rounds of the 32-bit counter lie between them, so runs of
  up to n posts show distinct numbers exactly for n up to 2^32 (`Posting.NoNumberTwice`,
  `Posting.NumbersLastIff`); a post's write keeps every logged message exactly when the log is still the one
  that post read (`Posting.WriteLosesNothingIff`).

## Model

| member | source | states |
|---|---|---|
| DnsCodec.ReadName | net_lab7/DNSResolver.cpp:157-202 | the text is the decoded labels joined by dots, the count is the space the name takes at the call position, for every readable name and any chain of backward pointers |
| DnsCodec.ScanName | net_lab7/DNSResolver.cpp:162-187 | on every buffer on which the loop finds a zero byte, after any pointers, and whose bytes fit the name buffer, it ends with the bytes of its iterations and has counted up to the zero byte or the first pointer |
| DnsCodec.LengthsToDots | net_lab7/DNSResolver.cpp:189-197 | the in-place pass turns every concatenation of length-prefixed labels into the labels each followed by a dot, keeps the length, and ends with the index there |
| DnsCodec.ShiftLabel | net_lab7/DNSResolver.cpp:191-196 | one label moves over its length byte, a dot takes its last place, nothing else changes, and the outer index is moved along |
| DnsScan.ScanAgreesIff | net_lab7/DNSResolver.cpp:168-182 | the byte-wise scan yields the flattened labels of the label-wise decoder if and only if every content byte is in 1..191 |
| DnsScan.ScanCollectsLabels | net_lab7/DNSResolver.cpp:162-187 | on such names text and count agree with the label-wise decoder, across compression pointers |
| DnsScan.RunsForEverIff | net_lab7/DNSResolver.cpp:168-182 | for every buffer and position the loop never ends if and only if it gets through one iteration more than the buffer has bytes, and if and only if it comes back to a position within that many |
| DnsScan.EndsOrLeaves | net_lab7/DNSResolver.cpp:168-182 | otherwise it stops at a zero byte or leaves the buffer within as many iterations as the buffer has bytes |
| DnsScan.BackwardJumpsEnd | net_lab7/DNSResolver.cpp:168-182 | when every pointer goes strictly before its own stretch the loop ends, by the measure (start of the stretch, bytes left), with exactly the bytes of the scan |
| DnsScan.JumpIntoOwnStretchNeverEnds | net_lab7/DNSResolver.cpp:168-174 | a pointer to itself or to any byte of the stretch in front of it is never left again |
| DnsCodec.ChangeToDnsNameFormat | net_lab7/DNSResolver.cpp:140-155 | for every zero-free host the buffer holds the encoding of its labels at the position, and every other byte is unchanged |
| DnsCodec.EmitLabel | net_lab7/DNSResolver.cpp:147-151 | the inner loop writes one label behind its length and moves both indices past it |
| DnsCodec.EmitHostLabel | net_lab7/DNSResolver.cpp:146-153 | at a dot the label since the last one is written, the buffer holds one label more of the host's encoding, and both indices are past the dot |
| DnsCodec.EncodeThenRead | net_lab7/DNSResolver.cpp:140-202 | for every host with labels of 1..63 bytes in 1..191, the encoding anywhere in a buffer is readable, reads back as the host, and takes host length plus two bytes |
| DnsCodec.EncodedStrLenIff | net_lab7/DNSResolver.cpp:38-41 | strlen finds the end of the encoding if and only if no label length is stored as zero |
| DnsName.SplitJoin | net_lab7/DNSResolver.cpp:145-153 | labels without dots survive joining by dots and splitting again |
| DnsName.JoinSplit | net_lab7/DNSResolver.cpp:145-153 | splitting a host at its dots and joining the labels gives the host |
| DnsName.DecodeRun | net_lab7/DNSResolver.cpp:168-182 | labels written in front of a name decode to themselves followed by that name's labels |
| DnsName.DecodeIgnoresTail | net_lab7/DNSResolver.cpp:72-83 | what stands in the buffer behind a message does not change the names in it |
| DnsMessage.QueryAsksIff | net_lab7/DNSResolver.cpp:38-44 | a reader of RFC 1035 finds exactly the host's labels, a final dot aside, in the bytes sent if and only if each has 1 to 63 bytes; the bytes are a query for the host, with nothing behind it, if and only if the labels also fit a name |
| DnsMessage.QuerySentIff | net_lab7/DNSResolver.cpp:61-63 | the bytes sent hold the whole encoding of the host (12 + length + 2 + 4 bytes) if and only if no label length is stored as zero |
| DnsMessage.QueryCutShort | net_lab7/DNSResolver.cpp:38-44 | if the first label out of range has a length stored as zero, the bytes sent are a complete query for the labels before it |
| DnsMessage.QueryUnreadable | net_lab7/DNSResolver.cpp:38-44 | if the first label out of range has a length stored as 64 to 191, no reader of RFC 1035 can read the name |
| DnsMessage.DoubleDotAsksForLess | net_lab7/DNSResolver.cpp:38-44 | the host "a..b" is asked for as "a" |
| DnsMessage.LongLabelUnreadable | net_lab7/DNSResolver.cpp:38-44 | a host of one label of 64 bytes is sent whole and cannot be read |
| DnsMessage.UncompressedStrLen | net_lab7/DNSResolver.cpp:82-83 | strlen plus one is the length of an uncompressed question name, so the walk starts at the first answer |
| DnsMessage.ReplyIgnoresTail | net_lab7/DNSResolver.cpp:72-83 | a reply and its address are the same over any leftover of an earlier message |
| DnsMessage.AddressWordIsAddress | net_lab7/DNSResolver.cpp:110-113 | the low four bytes of the word read from the data are the record's address, whatever memory follows the data |
| DnsMessage.AliasReplyServed | net_lab7/DNSResolver.cpp:72-113 | every reply laid out as alias record and address record with pointers to the question and into the first record is walked to its address |
| DnsMessage.OneAnswerServed | net_lab7/DNSResolver.cpp:81-113 | a reply of one address record is served if twelve zero bytes stand behind it in the buffer |
| DnsMessage.QueryHeaderFields | net_lab7/DNSResolver.cpp:23-37 | the header reads as a standard recursive query with the process's identification and one question |
| Resolver.NewBufferIsQuery | net_lab7/DNSResolver.cpp:15-44 | the constructor leaves the query of its host in the buffer |
| Resolver.ReceivedAddress | net_lab7/DNSResolver.cpp:72-113 | after a reply with answers, the low half of `s_addr` is that reply's address, whatever the buffer held |
| Resolver.SingleAnswerReceived | net_lab7/DNSResolver.cpp:72-113 | a resolver made from zeroed memory takes the right address from every reply of one address record whose owner is a pointer to the question and that ends with that record |
| Resolver.OneQueryOneReply | net_lab7/DNSResolver.cpp:48-118 | over every run of a new resolver that is called as it asks at most one packet is taken, a query for the host if and only if the host has a wire form; nothing is read before it, at most one message is, and the word kept has the address of a reply the code can serve, and is what the storage had after a reply without answers or none |
| Resolver.OneCall | net_lab7/DNSResolver.cpp:48-79 | what one call does to every field, for any call: flags, `drop`, buffer, address and completion |
| Resolver.NoAnswerKeepsWord | net_lab7/DNSResolver.cpp:110-113 | a reply without answers leaves the word of the address as it was |
| Resolver.DNSResolver.constructor | net_lab7/DNSResolver.cpp:13-45 | the new resolver's whole state, with the query buffer written over arbitrary memory |
| Resolver.DNSResolver.FillFdSet | net_lab7/DNSResolver.cpp:124-130 | asks to write exactly until the query is out, then to read exactly until a reply is in |
| Resolver.DNSResolver.Send | net_lab7/DNSResolver.cpp:61-70 | the packet is the query prefix of the buffer; only a successful send marks the request sent |
| Resolver.DNSResolver.WalkRecord | net_lab7/DNSResolver.cpp:88-108 | the reader ends behind address data by its data length and behind other data by the name read there, and address data is copied with a zero byte behind it |
| Resolver.DNSResolver.ParseAnswers | net_lab7/DNSResolver.cpp:81-117 | the walk over two records leaves in `s_addr` the word of the record the answer count selects |
| Resolver.DNSResolver.ReceiveAndParse | net_lab7/DNSResolver.cpp:72-118 | the whole state after a receive: message over the old buffer, flags, address |
| Resolver.DNSResolver.ExchangeData | net_lab7/DNSResolver.cpp:48-55 | refines the resolver step; a packet is sent only once, and it is a query for the host if and only if the host has a wire form |
| Handshake.EveryRun | net_lab7/SOCKS5Connecter.cpp:14-92 | over every run from construction to the first return of 1 the messages tried are a prefix of the two-byte version-5 method reply and the ten-byte version-5 request reply; a return of 1 without `drop` comes exactly at the second one, with the destination of the client's request |
| Handshake.FeedKeepsOk | net_lab7/SOCKS5Connecter.cpp:14-92 | every call keeps the phases: replies tried and waiting, destination, and why 1 was returned |
| Handshake.DroppedIsStuck | net_lab7/SOCKS5Connecter.cpp:15-17 | once `drop` is set nothing is read, sent or returned over any further calls |
| Handshake.CanFinishIff | net_lab7/SOCKS5Connecter.cpp:14-92 | a handshake under way, at any reachable point, can still end with both replies sent if and only if `drop` is not set |
| Handshake.FirstReadDecides | net_lab7/SOCKS5Connecter.cpp:18-39 | what the first read leaves to be sent is the method reply if and only if it brought bytes; on a socket that could answer "would block" it would be a request reply |
| Handshake.NewIsTalk | net_lab7/SOCKS5Connecter.cpp:14-92 | every run of a new handshake goes through the phases of a machine without buffers, driven by the calls alone: greeting, method reply, request, reply, left or stuck, with the messages heard and the replies tried |
| Handshake.WhenReadingEnds | net_lab7/SOCKS5Connecter.cpp:18-28 | an end of stream while a message is waited for returns 1 with `drop` set, a failed receive sets `drop` and returns 0; neither sends |
| Handshake.EveryRequestGoesOn | net_lab7/SOCKS5Connecter.cpp:29-92 | a message read and answered in one call leads to the next phase whatever the answer is: refused requests go on like granted ones |
| Handshake.AnyRequestAnswered | net_lab7/SOCKS5Connecter.cpp:39-60 | for any request the ten reply bytes: granted if and only if version 5, command 1 and no IPv6, 8 if and only if IPv6, else 7; other address types name no destination |
| Handshake.CompleteGreeting | net_lab7/SOCKS5Connecter.cpp:29-37 | a greeting received whole is answered 0x00 if and only if its own method list holds 0x00 |
| Handshake.DomainRequestRead | net_lab7/SOCKS5Connecter.cpp:61-69 | for every host and port the request for them is granted and read as that host and port |
| Handshake.Ipv4RequestRead | net_lab7/SOCKS5Connecter.cpp:70-76 | for every address and port the request is granted and read as the address text and port |
| Handshake.CutServesIff | net_lab7/SOCKS5Connecter.cpp:18-76 | for every greeting and host, the host and every port asked for are read right, whatever the buffer held, if and only if the first piece of the client's stream is the greeting and the second one the whole request |
| Handshake.RunReadsCut | net_lab7/SOCKS5Connecter.cpp:14-92 | over every run that has read two pieces of a stream the destination is the one of that cut |
| Handshake.QuadTextRead | net_lab7/SOCKS5Connecter.cpp:72-73 | the address text splits into four decimal numbers that are the four bytes |
| Handshake.SOCKS5Connecter.AnswerGreeting | net_lab7/SOCKS5Connecter.cpp:29-37 | refines the method reply, by the loop over the offered methods |
| Handshake.SOCKS5Connecter.BuildReply | net_lab7/SOCKS5Connecter.cpp:39-60 | the ten reply bytes, with the port known before parsing |
| Handshake.SOCKS5Connecter.ParseRequest | net_lab7/SOCKS5Connecter.cpp:61-76 | refines reading the destination from the request |
| Handshake.SOCKS5Connecter.ExchangeData | net_lab7/SOCKS5Connecter.cpp:14-92 | refines one call: state, return code and message tried |
| Handshake.SOCKS5Connecter.FillFdSet | net_lab7/SOCKS5Connecter.cpp:106-116 | asks to write always, to read until the first phase is over or while nothing waits |
| Relay.RunIsSafe | net_lab7/Connection.h:161-197 | over every run, in both directions, delivered chunks are in order prefixes of received chunks, at most the last one pending in the slot, and nothing is taken back |
| Relay.NewRelayIsWires | net_lab7/Connection.h:161-197 | over every run of a new relay each direction is a wire without buffers and counts: bytes taken by the sink, given by the source and waiting, and whether the relay is to be dropped, follow from the calls alone |
| Relay.TakenIsGone | net_lab7/Connection.h:181-196 | after a call in which a sink took something its slot is empty; a full slot offered to a sink that takes anything is sent once |
| Relay.RunIsLosslessIff | net_lab7/Connection.h:161-197 | over every run of a new relay, in each direction, delivered bytes and those waiting in the slot are exactly the received bytes if and only if every send made in the run fails or takes all that is in its slot at that moment |
| Relay.ClosedLosslessIff | net_lab7/Connection.h:161-197 | after every run of a new relay, in each direction, all that was received was delivered if and only if that holds of its sends and the slot is empty |
| Relay.HalfCloseLosesPending | net_lab7/Connection.h:163-180 | a run without a cut send whose relay is to be dropped with a byte in its slot |
| Relay.RunWholeIff | net_lab7/Connection.h:161-197 | the same for the chunks, from any reachable relay that has lost nothing so far |
| Relay.AsksForOneEachWay | net_lab7/Connection.h:146-159 | a relay not marked for disconnect has counts in 0..4096 and waits for exactly one of source and sink in each direction |
| Relay.OneTransferPerRound | net_lab7/Connection.h:161-197 | with masks that answer what was asked, at most one chunk moves in each direction and unsent bytes stay as they are |
| Relay.Connection.FillSets | net_lab7/Connection.h:146-159 | adds exactly the descriptors the relay waits for |
| Relay.Connection.ReceiveFromClient | net_lab7/Connection.h:163-171 | refines the first read |
| Relay.Connection.ReceiveFromForward | net_lab7/Connection.h:172-180 | refines the second read |
| Relay.Connection.SendToForward | net_lab7/Connection.h:181-188 | refines the first write |
| Relay.Connection.SendToClient | net_lab7/Connection.h:189-196 | refines the second write |
| Relay.Connection.ExchangeData | net_lab7/Connection.h:161-197 | refines the four steps in order and keeps the stream invariant |
| ProxySteps.SweepOneInv | net_lab7/Server.cpp:204-213 | dropping or keeping one connection keeps ownership, counting and ties; what is closed was open |
| ProxySteps.PendingInv | net_lab7/Server.cpp:145-156 | accepting one client keeps them |
| ProxySteps.HandshakeOneInv | net_lab7/Server.cpp:159-177 | feeding one handshake, keeping it or moving it on with a new socket, keeps them |
| ProxySteps.ResolveOneInv | net_lab7/Server.cpp:182-195 | advancing one resolver, keeping it or turning it into a connection and closing its socket, keeps them |
| ProxySteps.ExchangeAllInv | net_lab7/Server.cpp:224-228 | serving the connections keeps them |
| ProxyRun.Round | net_lab7/Server.cpp:35-48 | an iteration of the loop that is not left by an exception keeps the invariant |
| ProxyGuarantees.NothingLeaks | net_lab7/Server.cpp:145-221 | after every run the open descriptors are the disjoint union of listener, listed clients, resolver sockets and forwarding sockets, and accepted clients are the sum of the four stages |
| ProxyGuarantees.NoMixing | net_lab7/Server.cpp:158-197 | after every run a relay made from a resolver has its own client's descriptor, the port of that client's request and the address of its own resolver's reply, and nobody else holds its descriptors |
| ProxyGuarantees.AsksForOwnHost | net_lab7/Server.cpp:163-165 | what a waiting resolver sends is a query for its own client's host, as RFC 1035 reads it, if and only if that host has a wire form, a final dot aside |
| ProxyGuarantees.ServedAsAsked | net_lab7/Server.cpp:158-197 | a client that asks for a host and port and whose resolver gets the usual reply is relayed to that port at the replied address |
| ProxyGuarantees.AskedAsCut | net_lab7/Server.cpp:158-179 | after every run what a relayed client is taken to have asked for is the destination of the cut in which its stream was received |
| ProxyGuarantees.ClosedLosslessIff | net_lab7/Server.cpp:199-213 | for every relay that any run has closed, in each direction, all received bytes were delivered if and only if every send took its slot or failed and the slot was empty at the close |
| ProxyGuarantees.ListedLosslessIff | net_lab7/Server.cpp:224-228 | for every relay listed after any run the same, with the bytes that wait in its slots |
| ProxyGuarantees.RelaysAreWires | net_lab7/Server.cpp:199-228 | after every run every relay, listed or closed, is two such wires, driven by the calls the server made |
| ProxyGuarantees.HalfClosedIsSwept | net_lab7/Server.cpp:204-213 | the next preparation closes the half-closed relay with the byte still in its slot |
| ProxyHistory.HistoryInOrder | net_lab7/Server.cpp:158-197 | after every run what has passed for a client is a prefix of two messages of its own, one query, one reply; the query is for the host of its own request if and only if that host has a wire form; a listed resolver's query is out if and only if it says so |
| ProxyGuarantees.SelectSeesAll | net_lab7/Server.cpp:199-221 | whenever select is asked, its reach covers listener, clients and resolver sockets, each mask holds exactly the descriptors that the listener or a listed entry waits to read from, or to write to |
| ProxyGuarantees.StagesAdvanceOverRuns | net_lab7/Server.cpp:145-221 | over any rounds a client's stage never goes back |
| ProxyProgress.RoundMoves | net_lab7/Server.cpp:158-221 | in a round lists keep their order, newcomers are behind and come from an earlier stage, closed clients were relaying |
| ProxyProgress.StagesAdvance | net_lab7/Server.cpp:158-221 | no round takes a client back |
| ProxyProgress.OneStageEach | net_lab7/Server.cpp:145-221 | an accepted client is in exactly one of the three lists or closed |
| ProxyProgress.AcceptedIsTheSum | net_lab7/Server.cpp:145-221 | accepted clients are handshaking, resolving, relaying and closed ones together |
| ProxyProgress.RoundTransfersOnce | net_lab7/Server.cpp:199-228 | every relay listed when the sets were prepared does at most one transfer each way in the round and overwrites nothing unsent |
| ProxyTheorems.OpenIffListed | net_lab7/Server.cpp:145-221 | a descriptor is open if and only if it is the listener's or a listed entry's |
| ProxyTheorems.SelectAnswers | net_lab7/Server.cpp:137-139 | whatever select answers, a listed relay's descriptors are ready only as that relay asked |
| ProxyTheorems.SelectAnswersResolver | net_lab7/Server.cpp:137-139 | whatever select answers, a listed resolver's socket is ready to write only before its query is out and to read only afterwards |
| ProxyTheorems.SelectAnswersHandshake | net_lab7/Server.cpp:137-139 | whatever select answers, a handshaking client is ready to read only when its handshake waits for a message |
| ProxyTheorems.MasksAreOpen | net_lab7/Server.cpp:199-221 | the masks hold open descriptors only |
| ProxyCalls.CalledAsAsked | net_lab7/Server.cpp:145-197 | in every round every handshake and resolver that is called, newcomers of the round included, is called only as it asked |
| ProxyNewcomers.RelaysCalled | net_lab7/Server.cpp:158-228 | in every round relays listed when select was asked are called only as they asked; a relay made from a handshake finds its client ready if and only if that handshake read in the same call, and its own socket never; one made from a resolver never finds its client ready, and its own socket if and only if it has the descriptor of a resolver closed in the pass |
| ProxyNewcomers.ReadAgainUnasked | net_lab7/Server.cpp:166-172 | a greeted client whose IPv4 request is read and answered in one call leaves a relay called with that client still in the mask |
| ProxyNewcomers.ClosedDescriptorComesBack | net_lab7/Server.cpp:183-191 | of two resolvers done in a pass the second relay can get the first resolver's descriptor, still in the mask |
| ProxyCalls.DroppedStays | net_lab7/Server.cpp:158-179 | a listed handshake with `drop` set is still listed, unchanged and with its client open, after every further run |
| ProxyCalls.DroppedForEver | net_lab7/Server.cpp:158-179 | after every run a listed handshake has inputs that let it finish if and only if it has not set `drop`; if it has, it stays for ever |
| ProxyLiveness.GetsOnIff | net_lab7/Server.cpp:25-49 | after every run, as long as a descriptor within select's reach is free, there are further rounds after which a listed handshake's client is resolving or relaying if and only if the handshake has not set `drop` |
| ProxyLiveness.TwoRoundsOn | net_lab7/Server.cpp:158-179 | two rounds are enough for that |
| ProxyServed.CanAccept | net_lab7/Server.cpp:145-156 | after every run, while a descriptor below 1024 is free, some round accepts one client more |
| ProxyServed.CanResolve | net_lab7/Server.cpp:181-197 | after every run, for every listed resolver and every message, some further rounds relay its client to its port, at the address in the message if that is a reply the code can serve |
| ProxyServed.SlotGoesOut | net_lab7/Server.cpp:224-228 | from every reachable state one further round delivers what waits in a listed relay's slot |
| ProxyServed.AnybodyIsServed | net_lab7/Server.cpp:25-49 | after every run that leaves two descriptors below 1024, for every greeting, host, port, usual reply and data, some further rounds accept a new client, relay it to that port at that address and carry its data both ways |
| ProxyServed.HangUpLeaves | net_lab7/Server.cpp:158-179 | a client that ends its stream while its handshake waits is no longer among the handshakes after that round, and has a relay to nowhere |
| ProxyServed.LeftIff | net_lab7/Server.cpp:25-49 | after every run an exception leaves the next round if and only if select fails, accept or its range check refuses, or a resolver made in the round has a descriptor of 1024 or more |
| ProxyTheorems.PrepareFillsAll | net_lab7/Server.cpp:199-221 | all that listed entries wait for is in the masks, resolver sockets within reach |
| ProxyRounds.MasksAreExact | net_lab7/Server.cpp:199-221 | a descriptor is in the mask to read if and only if it is the listener's, that of a handshake not greeted or with nothing to send, that of a resolver with its query out and no reply, or the source of an empty slot; and in the mask to write if and only if it is a handshake's, that of a resolver with its query not out, or the sink of a full slot |
| ProxyRounds.PrepareDrops | net_lab7/Server.cpp:204-213 | exactly the connections to be dropped are dropped, exactly their descriptors are closed, everything else stays |
| ProxyRounds.AcceptsOneIff | net_lab7/Server.cpp:145-156 | with the listener ready exactly one client is accepted, with a descriptor that was not open and an unstarted handshake behind the others, unless accept fails or the descriptor is 1024 or more, which leaves the loop; otherwise nothing changes |
| ProxyRounds.HandshakesEach | net_lab7/Server.cpp:158-179 | every listed handshake is fed once with what the kernel has for its client, then stays, or gets a resolver, or a relay to the text in its request; its messages are in the log |
| ProxyRounds.ResolvingsEach | net_lab7/Server.cpp:181-197 | every listed resolver is called once; if readable its client is relayed and its message logged, else it stays with its query out or not |
| ProxyRounds.RoundCallsRelay | net_lab7/Server.cpp:224-228 | every listed relay is called once in a round, with the masks and what the kernel has for its two descriptors |
| ServerLoop.Server.constructor | net_lab7/Server.cpp:18-23 | the new server: only the listener is open, and select reaches nothing |
| ServerLoop.Server.ListenFor | net_lab7/Server.cpp:51-67 | the listener is refused or brought within reach of select |
| ServerLoop.Server.RunServer | net_lab7/Server.cpp:25-49 | from a new server, refines the run and keeps the invariant, or reports the exception |
| ServerLoop.Server.SweepAt | net_lab7/Server.cpp:204-213 | one connection is kept in place or closed and erased, and the iteration goes on behind it |
| ServerLoop.Server.PrepareSets | net_lab7/Server.cpp:199-221 | refines the preparation, closing only open descriptors |
| ServerLoop.Server.ProcessPendingConnections | net_lab7/Server.cpp:145-156 | refines accepting |
| ServerLoop.Server.HandleHandshake | net_lab7/Server.cpp:160-177 | one handshake is kept in place or erased, with its successor opened |
| ServerLoop.Server.ProcessWaitingForHandshake | net_lab7/Server.cpp:158-179 | refines the pass over the handshakes |
| ServerLoop.Server.HandleResolving | net_lab7/Server.cpp:183-195 | one resolver is kept in place or erased, its connection made before its socket is closed |
| ServerLoop.Server.ProcessWaitingForResolving | net_lab7/Server.cpp:181-197 | refines the pass over the resolvers |
| ServerLoop.Server.ProcessConnections | net_lab7/Server.cpp:224-228 | refines serving all connections |
| ServerLoop.Server.Iterate | net_lab7/Server.cpp:35-48 | refines a round and keeps the invariant, or reports the exception |
| ServerLoop.Server.RunLoop | net_lab7/Server.cpp:25-49 | refines the run and keeps the invariant at every top of the loop |
| ServerLoop.Server.CheckSocket | net_lab7/Utils.h:13-19 | refuses descriptors select cannot look at and widens its reach |
| ChatLog.PollDeliversOnce | net_lab5/src/main/java/lab4/client/RESTClient.java:242-291 | polling an unchanging log from any offset prints every later message once and in order |
| ChatLog.PageEnd | net_lab5/src/main/java/lab4/service/RESTService.java:292-320 | a page is the log from the offset on, empty exactly at the end, and its last number is where the next page begins |
| ChatLog.PageIs | net_lab5/src/main/java/lab4/service/RESTService.java:295-320 | a page is the log in order from the offset on, as many messages as asked for and as there are, for every offset and count |
| ChatLog.NextOffsetIff | net_lab5/src/main/java/lab4/client/RESTClient.java:282-283 | the next offset after message k is k + 1 if and only if k + 1 is an int |
| ChatLog.PollStartsOver | net_lab5/src/main/java/lab4/client/RESTClient.java:282-283 | after any page of any log the next offset is right if and only if the message behind the page has an int as its number; otherwise the first page comes again |
| ChatClient.Updater.ReadPage | net_lab5/src/main/java/lab4/client/RESTClient.java:255-285 | a page is printed whole and the offset is behind its last number |
| ChatClient.Updater.RequestPage | net_lab5/src/main/java/lab4/client/RESTClient.java:244-285 | one request, answered as the service answers it, leaves the transcript the log up to the offset, and asks for another update if and only if the log went on behind the old offset |
| ChatClient.Updater.UpdateMessages | net_lab5/src/main/java/lab4/client/RESTClient.java:242-291 | while others post, the transcript is always the log up to the offset, and the update ends with all that the last request found |
| ChatService.RESTService.ReadSlice | net_lab5/src/main/java/lab4/service/RESTService.java:295-320 | skipping and reading gives the page for every offset and count, negative ones included |
| ChatService.RESTService.ReadQuery | net_lab5/src/main/java/lab4/service/RESTService.java:257-286 | refines reading the query part by part, whose outcome `ChatService.QueryIs` states |
| ChatService.QueryCountFits | net_lab5/src/main/java/lab4/service/RESTService.java:257-286 | no accepted query asks for more than 100 messages |
| ChatService.QueryIs | net_lab5/src/main/java/lab4/service/RESTService.java:257-286 | a query is accepted if and only if it has at most two parts and each is an offset or a count of at most 100; the last offset and the last count are used, or 0 and 10; the first bad part decides the error |
| ChatService.PollIsAnswered | net_lab5/src/main/java/lab4/client/RESTClient.java:246 | the polling client's request is answered with the log from its offset on, up to 100 messages |
| ChatService.RESTService.CheckToken | net_lab5/src/main/java/lab4/service/RESTService.java:409-430 | a token is accepted if and only if it is known; the kind of header decides the error |
| ChatService.RESTService.GetMessages | net_lab5/src/main/java/lab4/service/RESTService.java:254-343 | the page asked for, or the error of the query, or then that of the token |
| ChatService.RESTService.Post | net_lab5/src/main/java/lab4/service/RESTService.java:345-386 | an accepted post appends one message under its index with its author and every channel has been sent the whole log; an error changes nothing |
| ChatService.RESTService.Append | net_lab5/src/main/java/lab4/service/RESTService.java:357-366 | the number taken is the index the message gets |
| ChatService.RESTService.BuildJsonMessages | net_lab5/src/main/java/lab4/service/RESTService.java:506-563 | the news of a channel are the log from its offset on, and its offset becomes the log's length |
| ChatService.RESTService.SendTo | net_lab5/src/main/java/lab4/service/RESTService.java:500-504 | one channel of those left is sent its news, the others are as they were |
| ChatService.RESTService.SendNewMessages | net_lab5/src/main/java/lab4/service/RESTService.java:500-504 | in any order of channels, each is sent its news once; everything pushed is the log up to the offset, and every offset is the log's length |
| ChatService.RESTService.Connect | net_lab5/src/main/java/lab4/service/RESTService.java:62-66 | a new channel is sent the whole log at once |
| ChatService.RESTService.Login | net_lab5/src/main/java/lab4/service/RESTService.java:111-169 | a fresh name gets the next number and a token that is accepted from then on; a name in use, a bad type or body is refused with its error and changes nothing |
| ChatService.RESTService.Logout | net_lab5/src/main/java/lab4/service/RESTService.java:171-197 | removes exactly the token and its user: the token is unknown from then on, every other one is answered as before |
| Posting.NoNumberTwice | net_lab5/src/main/java/lab4/service/RESTService.java:357-366 | over every interleaving of any number of posts no turn of the counter is logged twice; two messages show the same 32-bit number if and only if whole rounds of the counter lie between them |
| Posting.NumbersLastIff | net_lab5/src/main/java/lab4/service/RESTService.java:357-366 | all runs of up to n posts show distinct numbers if and only if n is at most 2^32 |
| Posting.WriteLosesNothingIff | net_lab5/src/main/java/lab4/service/RESTService.java:361-366 | a write keeps all logged messages if and only if the log is still the one the post read |
| Posting.OverlapLosesOne | net_lab5/src/main/java/lab4/service/RESTService.java:357-366 | two overlapping posts of which one message is left |
| Posting.OneByOneKeepsAll | net_lab5/src/main/java/lab4/service/RESTService.java:357-366 | without overlap the log grows by every message in order, and the counter's turn is its place |
| Membership.ListAgreesWithHistory | net_lab1/gradle/src/main/java/ru/nsu/kirsanov/MulticastApp.java:52-82 | over every history addresses are distinct and a peer is listed with a counter if and only if that is its own age |
| Membership.ListedIffHeard | net_lab1/gradle/src/main/java/ru/nsu/kirsanov/MulticastApp.java:118-146 | a peer is listed if and only if some OK or admitting HELLO of it is followed by fewer than ten ticks and no BYE |
| Membership.AgeIsTicksSince | net_lab1/gradle/src/main/java/ru/nsu/kirsanov/MulticastApp.java:52-65 | the counter is the number of ticks since the latest OK or admission |
| Multicast.MulticastApp.CheckTick | net_lab1/gradle/src/main/java/ru/nsu/kirsanov/MulticastApp.java:74-83 | the list follows the history by a tick, and all counters are below ten |
| Multicast.MulticastApp.IncrementAllTimeoutCounters | net_lab1/gradle/src/main/java/ru/nsu/kirsanov/MulticastApp.java:52-56 | every member's counter goes up by one, once |
| Multicast.MulticastApp.GetListOfTimeoutedClients | net_lab1/gradle/src/main/java/ru/nsu/kirsanov/MulticastApp.java:58-65 | exactly the members whose counter reached ten, each once, in the order of the list |
| Multicast.MulticastApp.RemoveAll | net_lab1/gradle/src/main/java/ru/nsu/kirsanov/MulticastApp.java:78-82 | every lookup finds its member, and what is left is the list without those members, in order |
| Multicast.MulticastApp.HandlePacket | net_lab1/gradle/src/main/java/ru/nsu/kirsanov/MulticastApp.java:118-146 | the list follows the history by the packet; HELLO and CHECK are answered |
| Multicast.MulticastApp.Refresh | net_lab1/gradle/src/main/java/ru/nsu/kirsanov/MulticastApp.java:131-138 | an OK adds an unknown member and resets a known one |

## Left out

- `Server` keeps the states of its handshakes, resolvers and relays in its lists, not references to the objects: each object belongs to one list entry from `new` to `delete`, the classes `SOCKS5Connecter`, `DNSResolver` and `Connection` are proved against the same step functions, but aliasing between them is not modelled.
- DnsCodec.ReadName: serves names with labels of 1 to 63 bytes in 1..191, pointers strictly before the current stretch, and at most 255 bytes of text. Its first half is served wherever the loop ends (`DnsCodec.ScanName`); elsewhere the code may leave its buffers or not end.
- DnsCodec.ChangeToDnsNameFormat: the scratch text has the byte that the code's array lacks; what the code overwrites there is not modelled.
- Resolver.DNSResolver.ReceiveAndParse: is stated for messages after which the buffer holds an uncompressed question, a record, and behind it another one or, after a single answer, anything the walk can get over; elsewhere the walk may leave the buffer or not end. For any other message the event loop takes an arbitrary address (`nonsense`).
- Resolver.DNSResolver.ExchangeData: likewise; and its caller does not let a resolver write whose buffer a message has overwritten, which the server never does (`ProxyCalls.CalledAsAsked`).
- Alias chains whose second answer is not an address: the code reads the text of a name as one.
- Handshake.EveryRun: client sockets are blocking, so their `recv` does not answer "would block"; `Handshake.FirstReadDecides` says what would follow.
- Resolver.OneQueryOneReply: is stated for calls as the resolver asks for them; the server makes no others, and `ProxyHistory.HistoryInOrder` states the same over its runs, for any answers of select.
- ProxyLiveness.GetsOnIff: asks for a free descriptor below 1024; without one, opening a resolver makes the range check end `run`.
- ProxyServed.AnybodyIsServed: says what some further rounds do for a client, from every reachable state, with two descriptors free; that the kernel goes on in that way (fairness) is not assumed anywhere.
- A send that is cut short during a handshake counts as sent, as in the code.
- Exceptions that leave `run` (failing `select` or `accept`, a descriptor of 1024 or more) end the modelled run; what `main` does then is not modelled.
- ServerLoop.Server.RunServer: asks for a listener that `socket` has given (not -1).
- Failing `socket` calls, `connect`, `bind`, `fcntl`, `signal` and the detail of `errno`, and that an end of stream on the resolver's socket sets `drop`.
- Whether select's reach covers forwarding sockets (the code never checks them), and whether the IPv4 path connects (its address family stays zero, net_lab7/Server.cpp:167-171). `inet_addr` is not modelled: a relay made without a resolver has the address text as its target.
- `Connection` starts with both counts at 0, as `resetBuffers` intends; its constructor leaves them unset.
- net_lab7/PortForwarder.cpp, `makeSelectMasks`, `processMasks` and the `read`/`write` helpers of `Connection`: an older path that `run` does not use.
- JSON, HTTP headers, Undertow, console output and the user lists: requests, bodies and log entries are datatypes. A fresh login token is given as a parameter.
- ChatService.RESTService.Post: handlers run one at a time there; overlapping posts are modelled in `Posting.dfy`, where reading and writing the file are single steps.
- `TimeoutHandler`, which unboxes null, and the client's status-code handling.
- The wrap-around of user numbers and of offsets on channels. That of message numbers is modelled; in `Posting.dfy` the counter's turns are counted without wrapping and the number shown is their 32-bit value.
- Packets and ticks of `MulticastApp` are atomic; sockets, sleeping and printing are not modelled.
