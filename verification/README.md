# gldap in Dafny

A model of gldap, an LDAP v3 server framework with an in-memory directory on top of it, and proofs
of what the two promise: messages and controls survive the wire, connections keep their channels,
counts and byte streams straight under every schedule, requests reach the handler meant for them,
and the directory keeps its entries in order over every run of requests.

`dafny verify dfyconfig.toml` checks the project.

## The parts

- **Bytes and packets.** `Octets` has base-256, two's-complement and decimal numbers. `Ber` has BER
  packets as values, the bytes they stand for (sections 8.1 and 8.3 of ITU-T X.690, definite length)
  and the reader. `BerObjects` has the same packets as objects that are filled and rewritten in place.
- **Controls.** `Controls` says what each control is encoded as, what decoding a control packet
  returns, and what it leaves behind in the packet. `ControlTheorems` proves the round trips, and
  `PolicyTheorems` says what a password policy sequence means as a whole. `ControlObjects` has the
  decoder and the describer working in place on packet objects.
- **Messages.** `Messages` has the request decoders and the packets of requests, `MessageTheorems` the
  request round trips, `ModifyValues` the path of a modification's values, `Responses` the packets of
  responses. `PacketBuilders` has the encoders as they work, appending children to packet objects, and
  `MessageDecoders` the decoders' loops. `ProtocolTheorems` has the numbers on the wire, written out, and
  `EdgeTheorems` what becomes of requests and controls that are short, long or malformed.
- **The server.** `Connection` and `Server` are a step system: the accept loop, the read loop of every
  connection, any number of handlers, the writer lock, both wait groups, cancellation and Stop.
  `ConnectionTheorems`, `StreamTheorems` and `ServerTheorems` prove invariants of every reachable state.
  `RunTheorems` reads what a connection has done off the actions of the run alone, `SessionTheorems` says
  which sequences of requests can be served, `ProgressTheorems` that nothing gets stuck, and
  `NoticeTheorems` is about the notice of disconnection.
- **Routing.** `Routing` has the routes, the message getters and the multiplexer.
- **The directory.** `Matching` has the filter matching and `FilterTheorems` what whole filters match,
  `Entries`, `EntryTheorems` and `EntryObjects` have the entries, `DirectoryModel` what each handler answers
  and changes, `DirectoryTheorems`, `SearchTheorems` and `ContentTheorems` what that amounts to, and
  `DirectoryHandlers` the handlers as loops and updates of entry objects, proved to do what
  `DirectoryModel` says.
- **Security identifiers.** `Sid`.
- **All of it together.** `DirectoryService` puts the directory behind its multiplexer, and `EndToEnd` follows an
  add and a search from bytes to bytes.

Each handler, encoder or decoder that works by changing things is a method, proved against a function on
values; what the source promises is then proved of that function.

## How Go is read

- A Go `string` and a Go `[]byte` are a `string` of one character per byte, everywhere. Where the code looks
  at characters, as when white space is trimmed, the model looks at their UTF-8 bytes.
- A call returns `Ok`, an error (`InvalidParameter`, `Internal`, or any other), or ends in a run-time panic.
- Integers have their Go width where it matters: `Wrap64`, `Wrap8`, `int64`, `uint32` and so on.
- A handler returns the responses it hands to the response writer. Whether each write succeeds is a
  parameter.

## Where the code is not what it seems

- Option values of a password policy are converted from unsigned to signed words, so the constructor accepts
  two options, or a code over 8, if one is huge (`HugeOptionsAccepted`). The control says what was asked
  exactly when at most one option is given and it is in range (`BeheraAsAsked`).
- A must-change control that says false is encoded like one that says true (`ControlRoundTrip`).
- Refusing a bind of a version other than 3 panics (`BindVersionRefusal`).
- A modify arrives unchanged only if it has no changes at all (`RequestWireRoundTrip`), and ConvertString
  recovers the values of a change only if there was exactly one (`ConvertReceived`).
- A filter "(&(x)(y))" is no conjunction: it matches whatever y is a part of (`AndFilter`); "(|(x)(y))" means what it
  says (`OrFilter`).
- A bind with more than three parts is taken without its password, and a search without an attribute list
  without its controls (`LongBind`, `ShortSearch`).
- Replace changes nothing (`ReplaceIsIgnored`), and a modify whose DN has no parenthesis never reaches a
  group (`PlainModifySparesGroups`).
- A DN with a star in it can be added twice (`StarredDNAddedTwice`); a DN is safe to add exactly when a lookup
  of it finds it (`SafeToAdd`).
- Stop can return while a socket is open and a handler runs (`StopReturnsEarly`). `StopReturnMeans` says exactly
  which sockets are open and which handlers run then, and how the close handler tells; Stop still is the end
  of reading and dispatching (`StopIsFinal`).
- The delete request of the test builders is typed as constructed, so its bytes cannot be read unless the DN
  happens to be BER (`BuiltDeleteOnWire`); on the wire a delete is the primitive packet of section 4.8 of RFC 4511.
- The identifier of the disconnection notice differs from the one section 4.4.1 of RFC 4511 gives, and no
  response carries its response name; the model has what is written, which is neither.

## Model

| member | source | states |
|---|---|---|
| `ControlTheorems.ControlRoundTrip` | control.go:89-253 | decoding an encoded control gives it back exactly when `RoundTrips` holds: unreserved type for a plain control, at most one non-negative field for password policy with the text that goes with its code, must-change true |
| `ControlTheorems.ControlWireRoundTrip` | control.go:89-253 | the same through bytes: the bytes, whatever follows them, are read as one packet, which decodes to the control exactly when `RoundTrips` holds |
| `ControlTheorems.BeheraAsAsked` | control.go:527-554 | for all option values a caller can give: the policy is made, encoded and decoded to exactly what was asked if and only if at most one option is given, grace and expiry are below 2^63, and the code is at most 8 |
| `ControlTheorems.HugeOptionsAccepted` | control_options.go:34-60 | huge values that the constructor accepts and should not: two options at once, a code over 8, a grace that comes out negative |
| `ControlTheorems.NewBeheraRoundTrips` | control_options.go:34-60 | for which option values, asked for or not, a policy that can be made survives the round trip |
| `ControlTheorems.DecodeReread` | control.go:89-253 | a control read off the wire decodes like the packet it was encoded as, for every control, including failures |
| `ControlTheorems.UnwrapReread` | control.go:143-151 | re-decoding a wrapped value from its own bytes gives the packet that was wrapped |
| `ControlTheorems.DecodeTwice` | control.go:137-220 | decoding rewrites the packet, and decoding the rewritten packet ends as the first decode did, for every packet, errors and panics included |
| `ControlTheorems.DescribeThenDecode` | control.go:664-772 | describing a control first changes nothing about how it decodes, errors and panics included |
| `Controls.ReservedKinds` | control.go:134-252 | every reserved control type selects its own branch |
| `ControlObjects.DecodeItems` | control.go:190-219 | the in-place loop over a password policy sequence: for each field what the last element that sets it says, or unset; the failure of the first malformed element; and the Value set in each element before it, and in no other |
| `PolicyTheorems.PolicyMeaning` | control.go:191-219 | for every sequence: expiry and grace are the numbers of the last warning of inner tag 0 and 1 or -1, error code and text those of the last error element or unset; a sequence with a malformed element fails as the first of them does, a warning without a child in a panic |
| `PolicyTheorems.PolicyMarks` | control.go:191-219 | the Value set in each element is the number read from it, for the elements before the first malformed one and no other |
| `ControlObjects.UnwrapInPlace` | control.go:143-151 | truncating Data, clearing Value and appending the re-decoded child, as one effect on the packet |
| `ControlObjects.DecodePagingInPlace` | control.go:152-163 | size and cookie, and the cookie's Value set in place |
| `ControlObjects.DecodePolicyInPlace` | control.go:185-220 | the password policy branch on an unwrapped value: the meaning of its first child's elements, or an error if it has no child |
| `ControlObjects.DecodeControlInPlace` | control.go:89-253 | result and rewritten packet of decodeControl for every well-linked packet tree, nil and failures included |
| `ControlObjects.DecodeControlTwice` | control.go:137-220 | on packet objects: the second decode of a rewritten packet ends as the first did, errors and panics included |
| `EdgeTheorems.ControlShape` | control.go:89-133 | a control packet with no child or more than three is an error; one whose type is no string, or whose middle of three is no boolean, a panic |
| `EdgeTheorems.BareControl` | control.go:134-252 | what a control that is only its type decodes to |
| `EdgeTheorems.PagingNumbers` | control.go:152-163 | the page size is the number sent, modulo 2^32, and the cookie the second field's bytes |
| `ProtocolTheorems.ControlTypes` | control.go:14-32 | the type each kind of control is sent under, written out |
| `EdgeTheorems.MarkedPaging` | control.go:158-162 | decoding sets the cookie's Value to the cookie read and leaves all else of the value packet as it was |
| `EdgeTheorems.MarkedWarning` | control.go:231-240 | decoding sets a warning's Value to the number read |
| `EdgeTheorems.DescribedPaging` | control.go:713-727 | describing a paging value unwraps it if it was not, marks its cookie, and panics exactly where the page's two fields are missing |
| `EdgeTheorems.DescribedPolicy` | control.go:729-768 | describing a policy value panics without a sequence, fails exactly if an element is malformed, and otherwise marks every element |
| `MessageDecoders.DescribeThenCollect` | control.go:664-772 | on one packet object: describing all controls in place and then decoding them gives what decoding alone gives, failures included |
| `MessageDecoders.DescribeAllThenDecode` | control.go:664-772 | the same of the list of packets |
| `MessageDecoders.CollectTwice` | packet.go:223-236 | on one packet object: decoding the controls a second time ends as the first time did, failures included |
| `ControlObjects.DescribeControlInPlace` | control.go:671-771 | one control of addControlDescriptions: outcome and rewritten packet |
| `ControlObjects.AddControlDescriptions` | control.go:664-772 | the whole loop: it succeeds exactly when every control can be described, and then every control is rewritten |
| `PacketBuilders.ControlPacket` | control.go:268-641 | the packet a control's Encode builds child by child is the one the round trips are about |
| `PacketBuilders.PagingValuePacket` | control.go:626-641 | the nested value of a paging control |
| `PacketBuilders.WarningValuePacket` | control.go:465-499 | the nested value of a password policy warning |
| `PacketBuilders.ErrorValuePacket` | control.go:500-509 | the nested value of a password policy error |
| `PacketBuilders.ControlsPacket` | control.go:81-87 | encodeControls keeps every control, in order |
| `Ber.LengthOfInverts` | request.go:323-373 | readLength inverts the minimal short and long length forms, whatever follows |
| `ModifyValues.ReadLength` | request.go:323-373 | the readLength loop computes the length with 64-bit wrap-around, gives -1 for the indefinite form, refuses 0xFF and more than eight length bytes, and panics on short input |
| `ModifyValues.ConvertString` | request.go:289-319 | the ConvertString loop strips tag and length off each string, in order, stopping at the first that fails |
| `ModifyValues.ConvertByTag` | request.go:300-314 | an octet or general string loses its tag and length, and every other tag is refused |
| `ModifyValues.ConvertReceived` | packet.go:180-221 | converting the values of a received change gives the values sent exactly when there was one; with more, the later ones keep their headers; with none, a panic |
| `ModifyValues.ModifyArrives` | packet.go:149-239 | a modify on the wire arrives with every change as one string of encoded values and all else as sent |
| `Ber.ReadSerialised` | conn.go:161-193 | reading a well-formed packet's bytes gives the packet, less what bytes do not carry, and leaves what follows |
| `Ber.ReadAllSerialised` | conn.go:161-193 | reading a run of serialised packets gives all of them, in order |
| `ProtocolTheorems.NoPacketInPrefix` | conn.go:161-193 | no proper prefix of a packet's bytes reads as a packet |
| `ProtocolTheorems.OddLengths` | request.go:323-373 | the indefinite, reserved, oversized and cut-short lengths |
| `ProtocolTheorems.IntegerBytes` | testing.go:73-77 | sample integers, an enumerated and a boolean, byte by byte |
| `ProtocolTheorems.LengthBytes` | request.go:323-373 | sample lengths where the form changes, byte by byte |
| `EdgeTheorems.LongNumber` | conn.go:164-175 | an integer of more than eight bytes reads as 0 |
| `ProtocolTheorems.TwosComplement` | control.go:196-199 | content octets read as the unsigned number less the weight of the sign bit, for octets of any length |
| `BerObjects.DecodePacketErr` | control.go:144-147 | re-decoding bytes makes a tree of new packet objects |
| `BerObjects.BerPacket.AppendChild` | control.go:150-150 | appending a child also appends its bytes to Data |
| `MessageTheorems.RequestRoundTrip` | message.go:128-238 | newMessage on the packet built for a message gives the message back exactly when `MessageRoundTrips` holds: every control round trips, simple authentication, no changes in a modify |
| `MessageTheorems.RequestWireRoundTrip` | testing.go:54-190 | the same through bytes, whatever follows them, for every message and any list of controls; a delete travels as a primitive packet, which is not what the builder makes |
| `MessageTheorems.BuiltDeleteOnWire` | testing.go:151-164 | the bytes of the builder's delete request can be read exactly when its DN reads as a run of packets |
| `MessageTheorems.DecodeCarried` | message.go:128-238 | what newMessage makes of an envelope carrying a message: ID, fields and lists in order, and the controls if they all decode |
| `MessageTheorems.RereadAttribute` | add.go:31-81 | an attribute read off the wire has its type and its values in order |
| `MessageTheorems.RereadChange` | modify.go:40-56 | a change read off the wire has its operation and type, and its values as one string |
| `MessageTheorems.BindVersionRefusal` | packet.go:96-111 | a bind of version 3 is accepted and one of any other version panics |
| `ProtocolTheorems.RequestBytes` | testing.go:54-190 | the first byte of every request: 60, 63, 66, 68, 4A, 62 and 77 in hexadecimal |
| `ProtocolTheorems.DecodedByByte` | message.go:128-238 | whatever packet decodes, the first byte of its request says to which kind of message, and its first part is the message's ID |
| `ProtocolTheorems.UnknownOperation` | packet.go:115-140 | a request of any other tag is refused with an internal error |
| `EdgeTheorems.ControlsFromEnvelope` | packet.go:223-236 | whatever packet decodes, its controls are the decoded children of its third part, which is context-specific and constructed, or none |
| `EdgeTheorems.LongBind` | packet.go:264-306 | a bind of more than three parts decodes with an empty password and no controls |
| `EdgeTheorems.ShortSearch` | packet.go:455-461 | a search without an attribute list decodes with no controls, whatever they are |
| `PacketBuilders.BuildPacket` | testing.go:54-190 | the request builders, appending child by child, build the packets the round trips are about |
| `PacketBuilders.SearchRequestPacket` | testing.go:67-98 | the search request, its seven fields and its attribute list in order |
| `PacketBuilders.ModifyRequestPacket` | testing.go:131-149 | the modify request and its changes |
| `PacketBuilders.AddRequestPacket` | testing.go:166-184 | the add request and its attributes |
| `PacketBuilders.AttributePacket` | add.go:31-40 | the encode loop of an attribute, in add.go, modify.go and entry.go alike |
| `PacketBuilders.ChangePacket` | modify.go:40-45 | the encoding of a change |
| `PacketBuilders.BuildResponse` | response.go:74-246 | the packet() builders of the responses |
| `MessageDecoders.CollectStrings` | packet.go:466-474 | the search attribute loop collects every string in order or reports the first that is not one |
| `MessageDecoders.CollectAttribute` | add.go:42-81 | decodeAttribute and its value loop |
| `MessageDecoders.CollectAttributes` | packet.go:343-349 | the attribute loop of an add request |
| `MessageDecoders.CollectChange` | packet.go:182-219 | one change of a modify request, with the loop over its raw values |
| `MessageDecoders.CollectChanges` | packet.go:178-222 | the change loop of a modify request |
| `MessageDecoders.CollectControls` | packet.go:223-236 | the control loop decodes every control in order or stops at the first failure, and rewrites the control packets it came to and nothing else |
| `MessageDecoders.DecodeAllTwice` | packet.go:223-236 | whichever packets of a list of controls have been rewritten, the list decodes as it did, failures included |
| `Responses.ResponseReadsBack` | response.go:74-246 | every response packet can be read back and carries the message ID first |
| `Responses.EntryReadsBack` | response.go:232-246 | a client reads an entry's DN and attributes back, in order |
| `Responses.ResultReadsBack` | response.go:177-219 | a client reads a result's code, matched DN and diagnostic back |
| `Responses.ControlsReadBack` | response.go:155-219 | a client that decodes a response's controls gets them back, in order, exactly when each of them round trips |
| `ConnectionTheorems.ChannelStep` | conn.go:71-144 | every step of a connection keeps requests numbered 1, 2, 3, reader and writer together, and every handler and response on its request's channel |
| `ConnectionTheorems.CountedStep` | conn.go:134-141 | every step keeps requestsWg equal to the handlers dispatched and not done |
| `ConnectionTheorems.ShutdownStep` | conn.go:81-129 | every step keeps an unbind the last request read, dispatch in order, and one dispatch at most after cancellation |
| `StreamTheorems.StreamsStep` | response.go:52-72 | every step of every writer keeps each channel's bytes a run of whole packets and at most one cut one |
| `Responses.EntryHasNoControls` | response.go:232-246 | an entry is sent without controls |
| `ServerTheorems.InvStep` | server.go:90-157 | every step of the server keeps all invariants of all connections and the server's own |
| `ServerTheorems.RunFromStart` | server.go:70-157 | they hold in every state every run from the start reaches |
| `ServerTheorems.InFlightAccounting` | conn.go:134-141 | in every run requestsWg counts the handlers in flight, and no handler runs once the socket is closed |
| `ServerTheorems.ClosesOnce` | server.go:113-128 | in every run the close handler has been called with an ID exactly when that connection is past its close, and never twice; by then its socket is closed and nothing is in flight |
| `ServerTheorems.StartsFresh` | server.go:90-113 | in every run, a connection about to start has an ID that no started connection has |
| `ServerTheorems.OneIDEach` | server.go:90-113 | in every run there are as many IDs as connections started, so no two connections share one |
| `ServerTheorems.ClosedForGood` | server.go:113-128 | once the close handler has been called for a connection, nothing about it changes again in any continuation |
| `ServerTheorems.ChannelSwitch` | conn.go:195-206 | in every run a request read after a completed handshake is read from, and answered on, the TLS channel, and a StartTLS reply goes out on the channel its request came by |
| `RunTheorems.ChannelOfEachRequest` | request.go:110-124 | counted over the actions of the run: reader and writer are over the channel of as many handshakes as were completed, there is one stream more than that, the requests read are those of the actions, each over the channel of the handshakes completed before it, and the responses written are those of the actions |
| `RunTheorems.AtMostOneAfterCancel` | conn.go:81-112 | counted over the actions after the Cancel action: a connection takes up at most one more request and reads at most one more, and one that starts later none |
| `RunTheorems.LoopEndsForGood` | conn.go:96-126 | after a failed read, a panic of an inline handler or a written notice, a connection reads, takes up and secures nothing more, in any continuation |
| `RunTheorems.AcceptLoopStops` | server.go:91-107 | counted over the actions after the listener is closed: no connection is accepted and at most one is started; after the cancellation the accept loop goes one more round at most |
| `SessionTheorems.WhatCanBeRead` | conn.go:71-144 | a connection can read these requests, of these kinds and over these channels in this order, in some run exactly if the first comes over the accepted socket, nothing follows an unbind, and the channel changes only after a StartTLS request, to a later one; however many they are |
| `SessionTheorems.FailOne` | request.go:116-119 | after a handshake that fails the loop goes on over the channel it had |
| `SessionTheorems.SecureMany` | request.go:116-123 | after any number of completed handshakes it goes on over the last of the new channels |
| `ProgressTheorems.CanAlwaysClose` | conn.go:208-215 | from every state of every run, every connection can still get to where its socket is closed and the close handler called |
| `ProgressTheorems.StopCanAlwaysReturn` | server.go:166-196 | from every state of every run in which Stop has closed the listener, Stop can still return |
| `ServerTheorems.ResponseAtomicity` | response.go:52-72 | in every run the bytes sent on a channel are whole responses and at most one cut one, and on an idle unbroken channel a reader gets exactly the responses written, in order |
| `ServerTheorems.ShutdownAndUnbind` | conn.go:71-144 | in every run: IDs 1, 2, 3; an unbind is the last request read and is not dispatched, and the others are, in order; at most one dispatch after cancellation and none on a connection started later |
| `ServerTheorems.OneNotice` | conn.go:81-103 | in every run: the writes under the ID no request has are notices, at most one; writing it is the last thing the loop does, and a loop that saw the shutdown has done it when it returns |
| `NoticeTheorems.NoticeIsResponse` | conn.go:88-95 | the notice is the packet of the unwilling-to-perform response with message ID 0 |
| `NoticeTheorems.NoticeSendable` | conn.go:95-98 | the notice is a packet a client can read |
| `NoticeTheorems.NoticePossible` | conn.go:95-98 | a loop that has seen the shutdown can start the notice exactly when the writer is free |
| `ServerTheorems.StopIsFinal` | server.go:166-198 | once Stop has returned, every connection has left its loop or started after cancellation, and no connection reads or dispatches again |
| `ServerTheorems.StopReturnsEarly` | server.go:116-119 | a run in which Stop returns while a connection's socket is open and its handler runs |
| `ServerTheorems.StopReturnMeans` | server.go:166-198 | for every run and connection once Stop has returned: the socket is open exactly while the connection waits in close or was started after the cancellation and is not done; while it waits a handler is in flight exactly when requestsWg is not 0; the close can go through exactly when none is; the close handler was called exactly if all is over |
| `ServerTheorems.AllHeardMeansAllClosed` | server.go:113-128 | if the close handler has been called for every connection, all sockets are closed and no handler runs |
| `Routing.GetterByType` | request.go:184-284 | a message getter succeeds exactly on the messages of its operation |
| `Routing.DecodedBindIsSimple` | packet.go:264-306 | every bind message that is decoded uses simple authentication |
| `Routing.MatchIsByType` | route.go:58-195 | for the request of any decoded packet, a registered route matches exactly if it was registered for the message's operation and accepts the message; an unbind matches none |
| `Routing.DispatchByType` | mux.go:218-232 | for the request of any decoded packet, the route that serves is the earliest that takes the message, and the getter of its operation returns the message |
| `Routing.Mux.ServePacket` | conn.go:146-159 | a packet made into a request and served: decoding failures pass through, and otherwise exactly one of the earliest taker's handler, whose getter returns the message, the default handler, or one refusal |
| `Routing.Mux.Register` | mux.go:30-185 | registration appends one route of its own operation, or refuses a missing handler |
| `Routing.Mux.DefaultRoute` | mux.go:187-201 | sets the default handler, or refuses a missing one |
| `Routing.Mux.Unbind` | mux.go:56-74 | sets the unbind handler, or refuses a missing one |
| `Routing.Mux.Serve` | mux.go:203-240 | exactly one of: the earliest matching handler, the default handler, one unwilling-to-perform response |
| `ProtocolTheorems.NoHandlerReply` | mux.go:238-239 | that response has the request's message ID, first byte 78, code 53 and its two texts |
| `ProtocolTheorems.NoHandlerOnWire` | mux.go:238-239 | its bytes are read by the client as an extended response to that message with code 53 and the text |
| `Matching.Match` | testdirectory/directory.go:713-729 | the match loop finds whether some cleaned parenthesised group of the filter occurs in the text; the rows below say which groups there are and what cleaning leaves |
| `FilterTheorems.GroupsAreAllMatches` | testdirectory/directory.go:716-717 | the groups are the texts of all matches of the expression, leftmost first and none overlapping, and there is only one such list |
| `FilterTheorems.MatchesAppend` | testdirectory/directory.go:716-727 | a filter that starts with a closed group matches what that group matches and what the rest does |
| `FilterTheorems.OrFilter` | testdirectory/directory.go:716-727 | an or-filter over any number of ordinary texts matches exactly the texts one of them is part of |
| `FilterTheorems.AndFilter` | testdirectory/directory.go:716-727 | an and-filter over them matches exactly the texts one of the later ones is part of, or that hold "&(" and the first |
| `FilterTheorems.StarsIgnored` | testdirectory/directory.go:719-719 | a filter with stars anywhere in it matches exactly the texts that hold it without them |
| `FilterTheorems.RemoveStarsJoin` | testdirectory/directory.go:719-719 | removing stars takes out each star and keeps every other character in its place |
| `FilterTheorems.SpacesIgnored` | testdirectory/directory.go:723-723 | spaces around a filter's text make no difference |
| `FilterTheorems.TrimSpaceMeans` | testdirectory/directory.go:723-723 | trimming cuts white space off both ends, and all of it |
| `Matching.SelfMatch` | testdirectory/directory.go:713-729 | a star-free DN in parentheses matches itself exactly when the expression finds a group in it |
| `Matching.PlainDNMatchesItself` | testdirectory/directory.go:713-729 | so it does for every DN without a star or a line break |
| `Matching.OrdinaryDNMatches` | testdirectory/directory.go:713-729 | an ordinary DN in parentheses matches exactly the texts it is part of |
| `Matching.StarredDNDoesNotMatchItself` | testdirectory/directory.go:718-723 | with a star inside it ordinary text does not match itself |
| `Entries.AscendingIsUnique` | entry.go:33-42 | there is one way to put names in order, so map iteration order does not show |
| `Entries.LessMeans` | entry.go:41-41 | one name comes before another exactly if it is a proper prefix or has the smaller byte where they first differ |
| `EntryObjects.SortedNames` | entry.go:37-41 | the names of a map, taken in any order and sorted, are always the same list |
| `EntryObjects.Entry.constructor` | entry.go:36-51 | a new entry holds the map's attributes, in order of name, in objects of its own |
| `EntryObjects.EntryAttribute.constructor` | entry.go:87-97 | values and byte values in step |
| `EntryObjects.EntryAttribute.AddValue` | entry.go:100-105 | appends to both lists, in order |
| `EntryObjects.Entry.GetAttributeValues` | entry.go:24-31 | the values of the first attribute of that name, or none |
| `EntryObjects.ApplyAll` | testdirectory/directory.go:546-578 | the change loop on an entry object has the effect of the changes one after the other, and touches only that entry and its attributes |
| `EntryTheorems.NewRecordHolds` | entry.go:36-51 | a new entry has distinct names in order, values in step, and what the map holds under each name |
| `EntryTheorems.ValuesOfFirst` | entry.go:24-31 | a lookup finds the first attribute of its name, whatever follows |
| `ProtocolTheorems.ChangeNumbers` | testdirectory/directory.go:546-578 | change 0 adds values, change 1 takes the attribute away, change 2 and every other leaves the entry as it is |
| `EntryTheorems.ScansAgree` | testdirectory/directory.go:549-556 | the last-match scan of a modify and the first-match scan of a lookup find the same attribute |
| `EntryTheorems.ChangesEffect` | testdirectory/directory.go:546-578 | any list of changes keeps names distinct and values in step, and each name's values are what the changes of that name make of them: add appends, delete empties, all else leaves alone |
| `EntryTheorems.ChangesKeepOthers` | testdirectory/directory.go:546-578 | attributes that no change names come through untouched and in order, whatever set of names the changes have |
| `EntryTheorems.ReplaceIsIgnored` | testdirectory/directory.go:570-576 | a replace changes nothing, so it does what was asked exactly when the values were there already |
| `DirectoryTheorems.HitsMeaning` | testdirectory/directory.go:694-711 | find gives the indexes of all entries whose DN matches and of no others, in order |
| `DirectoryTheorems.RunKeepsDistinct` | testdirectory/directory.go:583-672 | over every sequence of requests user DNs stay pairwise distinct, and group DNs too, if a lookup of each DN added finds that DN |
| `DirectoryTheorems.PlainRunKeepsDistinct` | testdirectory/directory.go:583-672 | so they do if no added DN has a star or a line break |
| `DirectoryTheorems.SafeToAdd` | testdirectory/directory.go:605-616 | a DN can be added in every run from every start without making a duplicate if and only if a lookup of it finds it |
| `DirectoryTheorems.AddTwice` | testdirectory/directory.go:605-616 | adding a DN twice makes a duplicate exactly when the DN in parentheses does not match itself |
| `DirectoryTheorems.StarredDNAddedTwice` | testdirectory/directory.go:605-616 | a run that adds a starred DN twice |
| `DirectoryTheorems.RunKeepsEntries` | testdirectory/directory.go:546-578 | over every sequence of requests no entry has two attributes of one name or values out of step |
| `DirectoryTheorems.AddResult` | testdirectory/directory.go:590-618 | an add succeeds exactly when no user matches, and otherwise says the entry exists |
| `ProtocolTheorems.AddReply` | testdirectory/directory.go:583-618 | first byte 69; code 0 if no user matches, 68 with the DN in the text if one does, 1 if it is no add |
| `ProtocolTheorems.DeleteReply` | testdirectory/directory.go:622-670 | first byte 6B; code 0 for one user, or no user and one group; 32 for none; 18 with the number of matches otherwise |
| `ProtocolTheorems.ModifyReply` | testdirectory/directory.go:504-581 | first byte 67; code 0 with the matched DN for one user, or no user and one group; 32 for none; 18 with the number of matches otherwise |
| `ProtocolTheorems.TooManyText` | testdirectory/directory.go:536-536 | the text that tells the number of matches |
| `ProtocolTheorems.BindReply` | testdirectory/directory.go:193-238 | first byte 61; code 0 for an allowed anonymous client or an entry of that DN whose first password it is, and 49 otherwise |
| `DirectoryTheorems.DeleteUser` | testdirectory/directory.go:644-655 | a delete takes out the one user that matches, keeps all else in order, and the lookup then finds nothing |
| `DirectoryTheorems.DeleteGroup` | testdirectory/directory.go:656-668 | where no user matches, the one group |
| `DirectoryTheorems.DeleteOtherwise` | testdirectory/directory.go:644-670 | no other delete succeeds, and one that does not succeed changes nothing |
| `DirectoryTheorems.DeleteCode` | testdirectory/directory.go:626-670 | the result code for one match, none, and several |
| `DirectoryTheorems.ModifyUser` | testdirectory/directory.go:526-578 | a modify changes the one user that matches and reports its DN; each name's values are what the changes make of them, and unnamed attributes stay as they are, in order |
| `DirectoryTheorems.ModifyGroup` | testdirectory/directory.go:528-578 | where no user matches, the same of the one group the bare DN matches |
| `DirectoryTheorems.ModifyOtherwise` | testdirectory/directory.go:526-538 | no other modify succeeds, and one that does not succeed changes nothing |
| `DirectoryTheorems.ModifyCode` | testdirectory/directory.go:510-538 | the result code for one match, none, and several |
| `DirectoryTheorems.GroupReachable` | testdirectory/directory.go:529-529 | a bare DN matches some text exactly when it has a parenthesised part |
| `DirectoryTheorems.PlainModifySparesGroups` | testdirectory/directory.go:527-532 | a modify whose DN has no parenthesis never changes a group |
| `DirectoryTheorems.BindSucceeds` | testdirectory/directory.go:200-236 | who can bind: an allowed anonymous client, or a user giving that user's first password; and who gets the controls |
| `SearchTheorems.SearchShape` | testdirectory/directory.go:289-500 | each search handler writes entries and then one result, all with the request's ID; outside the SID branch success and controls exactly when something was found and every entry got out |
| `SearchTheorems.GroupSearch` | testdirectory/directory.go:411-434 | a group search returns each group once per matching member, once if only its DN matches, members first and in list order |
| `ContentTheorems.UserSearch` | testdirectory/directory.go:475-499 | the stream is an entry for each user whose DN matches the filter, all of them, no other and in list order, each with its DN and attributes, and then one result: success and the controls if there was any; up to the first write that fails |
| `ContentTheorems.NoSearch` | testdirectory/directory.go:294-301 | what is no search gets one result, no such object, and no entry |
| `ProtocolTheorems.SearchBytes` | response.go:199-246 | an entry starts with the byte 64 and the result that closes a search with 65 |
| `ContentTheorems.GroupSearchContent` | testdirectory/directory.go:411-447 | the same of groups: first one entry for each member that matches, counted by its place in the group's list, in list order; then each group whose DN matches and no member of which does, once and in list order |
| `ContentTheorems.GenericSearch` | testdirectory/directory.go:304-385 | the users and then the groups that match, all of them and in list order; what they must match is the base DN in parentheses if the user base is part of it, and otherwise the filter |
| `ContentTheorems.SidSearch` | testdirectory/directory.go:321-343 | a base of "<SID=", a key and an optional ">" is answered with the groups kept under exactly that key, or none, and success |
| `DirectoryService.NewDirectoryMux` | testdirectory/directory.go:128-138 | the directory registers these routes in this order |
| `DirectoryService.DirectoryRoute` | testdirectory/directory.go:128-138 | which route serves each kind of message, searches by their base DN |
| `DirectoryService.SearchRoute` | testdirectory/directory.go:130-138 | a search goes to the generic handler exactly when its base is neither base DN |
| `DirectoryService.ServedIsNext` | testdirectory/directory.go:128-138 | a message served through the multiplexer changes the directory as one step of a run |
| `DirectoryService.ServeBytes` | conn.go:146-193 | bytes read, decoded, routed and handled by the directory's objects: state and responses, and no change when reading or decoding fails |
| `SearchTheorems.AddThenSearch` | testdirectory/directory.go:304-385 | after a successful add, a search at that DN returns an entry with the last attribute of each type, sorted and without duplicates, and success |
| `EndToEnd.AddThenSearchOnWire` | testdirectory/directory.go:583-620 | an add and then a search at its DN, sent as bytes and routed by the directory's multiplexer: both are decoded as sent, and if the add succeeds one of the results written is read by the client, byte for byte, as that entry with the last values of each type, sorted |
| `EndToEnd.ServeSent` | conn.go:146-193 | the bytes of any message that survives the wire, whatever follows them, are served by the directory's objects as that message |
| `EndToEnd.EntryOnWire` | response.go:232-246 | the bytes of a search entry are read by a client as an entry with that message ID, DN and attributes |
| `DirectoryHandlers.Find` | testdirectory/directory.go:694-711 | the find loop returns those indexes and those entry objects |
| `DirectoryHandlers.FindMembers` | testdirectory/directory.go:674-692 | the nested loop returns each group once per matching member |
| `DirectoryHandlers.AddMatching` | testdirectory/directory.go:351-364 | the loop that appends matching groups not there already |
| `DirectoryHandlers.WriteEntries` | testdirectory/directory.go:365-378 | the write loop sends the entries in order and stops at the first write that fails |
| `DirectoryHandlers.Collect` | testdirectory/directory.go:610-613 | the attribute map of an add keeps the last values of each type |
| `DirectoryHandlers.Directory.constructor` | testdirectory/directory.go:103-113 | a directory over entries that share no object |
| `DirectoryHandlers.Directory.HandleAdd` | testdirectory/directory.go:583-620 | the new state and the response, on entry objects that stay apart |
| `DirectoryHandlers.Directory.HandleDelete` | testdirectory/directory.go:622-672 | the new state and the response |
| `DirectoryHandlers.Directory.HandleModify` | testdirectory/directory.go:504-581 | the new state and the response; every other entry object is left as it was |
| `DirectoryHandlers.Directory.HandleBind` | testdirectory/directory.go:193-238 | the response of the bind loop |
| `DirectoryHandlers.Directory.HandleSearchUsers` | testdirectory/directory.go:452-502 | the responses written: an entry for each user of the directory whose DN matches, in order, and one result; write failures included |
| `DirectoryHandlers.Directory.HandleSearchGroups` | testdirectory/directory.go:389-450 | the responses written: an entry for each matching member of each group and for each group whose DN alone matches, and one result; write failures included |
| `DirectoryHandlers.Directory.HandleSearchGeneric` | testdirectory/directory.go:282-387 | the responses written: the token groups of a SID, or every user and group that matches the base DN or the filter, and one result; write failures included |
| `DirectoryHandlers.Directory.ServeAll` | testdirectory/directory.go:504-672 | requests served one after the other on entry objects make the run the theorems are about |
| `Sid.SIDBytes` | sid.go:13-30 | the bytes made for revision r and authority a are of exact length and print as "S-r-a" |
| `Sid.SIDBytesToString` | sid.go:33-64 | the reader and the printing loop give the text of the numbers, or an error when bytes are missing |
| `Sid.SidPrints` | sid.go:33-64 | for every revision, 48-bit authority and up to 255 32-bit sub-authorities: the bytes with the authority most significant byte first and the others least significant first print as "S-r-a-s1-s2-..." |
| `Sid.EverySidPrints` | sid.go:33-64 | every identifier of exact length is one of those |
| `Sid.WellKnownSid` | sid.go:54-61 | the bytes 01 01 00 00 00 00 00 05 15 00 00 00 print as "S-1-5-21" |
| `Sid.SidTextInjective` | sid.go:33-64 | two identifiers of exactly the length their count calls for that print alike are equal |
| `Sid.TrailingBytesIgnored` | sid.go:33-64 | without the exact length that fails: bytes past the last sub-authority are not printed |
| `Octets.ParseIntInverts` | control.go:231-238 | the decimal text of every 64-bit number parses back to it |
| `Octets.ParseInt64Inverts` | control.go:196-199 | the minimal two's-complement bytes of every 64-bit number parse back to it |

## Left out

- Logging, Description texts, String and PrettyPrint methods, name tables, functional options: text and plumbing.
- TLS handshakes, sockets, deadlines, certificates: a handshake or a write succeeds or fails, as a step of its own.
- High tag numbers and indefinite lengths of BER, and the size limit of the packet reader: the reader refuses the first two.
- The filter compiler and decompiler: the round trips take an inverse pair.
- The `validated` flag of a packet, which only skips a check that was already passed.
- Unicode case folding in route matching: any relation.
- A handler that panics in its own goroutine, which ends the process; a panic in the loop's goroutine is a step.
- Interleaved directory handlers: the lookups of add, delete and modify run before the lock is taken, so what is said of the directory is said of handlers run one at a time.
- DirectoryHandlers.Directory.constructor: asks for lists in which no entry or attribute object occurs twice, where the source also takes lists that share objects; the lists are sequences, so a slice shared with the caller is not modelled either.
- The StartTLS handler of the directory: its handshake is a step of the connection.
- The withFirst option of find and findMembers, which no handler uses, and the directory's setters and getters.
- The value of an extended request, which no decoder sets.
