# Verified models of a DHCP library

Dafny models of the parts of a Go DHCP library whose correctness spans several
functions or a whole protocol, with proofs about them for all inputs and all runs:

1. **The transaction dispatcher of the DHCPv4 client** (`Dispatcher*.dfy`). One
   receive loop, any number of `SendAndRead` calls and any number of `Close` calls
   share a mutex, a map of channel pairs and a connection. It is a step system:
   every goroutine is a program counter, every atomic action a step, and the
   theorems are about every interleaving.
2. **The DHCPv6 codec and its relay messages** (`Duid.dfy`, `V6*.dfy`). Messages
   and options nest in each other without bound. The specification is a set of
   mutually recursive functions; the cursor code is a set of mutually recursive
   methods proved equal to them.
3. **RFC 1035 names with compression pointers** (`Labels.dfy`,
   `LabelEncoding.dfy`), including the object that caches the bytes it was read from.
4. **DHCPv4 options, packets and boot image lists** (`V4*.dfy`, `Bsdp.dfy`). The
   option map is an object that parses and marshals itself in place.
5. **The Internet checksum and raw UDP packets** (`Checksum.dfy`, `Raw*.dfy`).
   Headers are written in place in one array.

`Wire.dfy` holds bytes, big-endian numbers and the cursor. The cursor's code is in
another repository, so `Lexer` states what the codecs rely on: its first error is
sticky, a short read consumes nothing and yields nil or zero, a read of no bytes
succeeds, and the final check also fails on unread bytes.

Most results are exact. Where a natural claim is false of the code, there is a
condition that a caller could check and a proof that the claim holds if and only
if the condition does.

Every lemma carries `{:induction false}`: inductions are written out in the proofs,
and nothing rests on the verifier's automatic induction.

## What became a parameter

- Network, timers, contexts, scheduling and the moments at which calls begin are
  steps of the dispatcher that may happen whenever their guard allows. A closed
  connection is taken to fail reads and writes.
- Transaction IDs, matchers, retry counts and buffer capacities are arbitrary.
- A raw socket is a sequence of arrivals.
- The element parser passed to the DHCPv6 option loop is a flag, as there are two.
- `net.IP` is a sequence of bytes, nil being the empty one; `To4` and `To16` are
  written out.

## Where code and documentation differ

The models follow the code.

- `DecapsulateRelayIndex` is documented to return the outermost relay for index 0;
  it returns what that relay contains.
- Label lengths of 64 to 191 are neither pointers nor errors; they are read as
  lengths, which is why names survive with parts of up to 191 bytes.
- A DHCPv4 option code that is the last byte is accepted without a length when no
  End option is asked for, and no bytes at all are accepted even when one is.
- RFC 768 asks for a zero UDP checksum to be sent as all ones; the code sends zero.

## Model

| member | source | states |
|---|---|---|
| DispatcherSafety.StepKeepsSafe | dhcpv4/nclient4/client.go:167-344 | every atomic step of the loop, of any call, of any `Close` and of the environment keeps the safety invariant: no misuse of a channel, one lock holder, map, channels and owners agree; a matcher that panics on nil leaves through the deferred `cancel` and keeps it too |
| DispatcherSafety.RunIsSafe | dhcpv4/nclient4/client.go:167-412 | every state of every run satisfies the safety invariant, whatever the transaction IDs and however many calls there are |
| DispatcherSafety.ChannelSafety | dhcpv4/nclient4/client.go:200-344 | in every reachable state nothing was closed twice or sent on a closed channel, a response channel is open if and only if its entry is registered, an attempt in progress is attached to its own entry, and the lock has one holder |
| DispatcherDelivery.RunDelivers | dhcpv4/nclient4/client.go:187-212 | in every reachable state each entry holds messages in arrival order, all of them BootReplies for its transaction and the client hardware address, and every message taken before the one returned was rejected by the matcher |
| DispatcherDelivery.FirstMatch | dhcpv4/nclient4/client.go:355-390 | a call that returns a message returns the first of those delivered to that attempt that the matcher accepts; it is a BootReply with the transaction ID of the call and the hardware address of the client |
| DispatcherOutcome.OutcomeArises | dhcpv4/nclient4/client.go:310-390 | exactly which step of which goroutine ends an attempt or the call, and how: a message taken from the channel or handed over and accepted, a nil accepted or panicked on, the deadline, the context, a failed write, an ID in use, a closed client, no attempts left |
| DispatcherOutcome.OutcomeIsKept | dhcpv4/nclient4/client.go:392-412 | no step of any goroutine changes an outcome or takes the call further from returning it, except that a `cancel` after an exceeded deadline leads to the next attempt |
| DispatcherOutcome.OutcomeIsFinal | dhcpv4/nclient4/client.go:382-412 | over whole runs: every outcome but an exceeded deadline stays until it is the one the call returns, the accepted message included |
| DispatcherOutcome.GivesUpIff | dhcpv4/nclient4/client.go:392-412 | over whole runs: a call that comes to retry gives up if and only if it has exceeded exactly `retry` deadlines, never exceeds more, and otherwise makes the next attempt |
| DispatcherOutcome.BeginAdds | dhcpv4/nclient4/client.go:355-357 | a call can begin at any time, with its ID and matcher, at its first attempt |
| DispatcherReturn.OutcomeIsReturned | dhcpv4/nclient4/client.go:322-344 | whatever the other goroutines are doing, the call can return its outcome, without timers, contexts or failed writes |
| DispatcherReturn.AcceptedIsReturned | dhcpv4/nclient4/client.go:375-390 | from every reachable state in which the matcher rejects the first messages in the channel and accepts the next, a path without timers leads to the return of exactly that message |
| DispatcherReturn.ArrivalIsReturned | dhcpv4/nclient4/client.go:167-214 | when the loop reads with the lock free, a BootReply for the client and for the transaction of a waiting call that accepts it can be returned by that call; any other arrival changes nothing |
| DispatcherReturn.InHandIsBuffered | dhcpv4/nclient4/client.go:200-212 | with room in the channel the loop can put its message last in it and go on reading, and nothing else changes |
| DispatcherReturn.AttemptWaits | dhcpv4/nclient4/client.go:310-344 | an attempt with a free ID registers a new channel under it and comes to wait on it, and nothing else changes |
| DispatcherReturn.CloseStops | dhcpv4/nclient4/client.go:137-159 | when some `Close` has returned and none is at work, connection and `done` are closed and the receive loop has exited |
| DispatcherDelivery.StepAccountsForMessages | dhcpv4/nclient4/client.go:200-212 | conservation: no message is lost, duplicated or reordered on its way to an entry, except that one is discarded when the owner asked for the entry to be dropped |
| DispatcherOwnership.StepKeepsOwn | dhcpv4/nclient4/client.go:322-337 | from any safe state in which every channel is with its owner, a step leaves it so if and only if it is not a `cancel` that finds the entry of another call under its transaction ID |
| DispatcherOwnership.RunKeepsOwnIff | dhcpv4/nclient4/client.go:322-337 | for whole runs: every channel is with its owner in every state if and only if no step of the run is such a `cancel` |
| DispatcherOwnership.StealNeedsOverlap | dhcpv4/nclient4/client.go:322-337 | such a `cancel` happens only while two calls on one transaction ID overlap |
| DispatcherOwnership.OwnChannel | dhcpv4/nclient4/client.go:355-390 | over every run without such overlap, the channel of an attempt stays open until the attempt asks for it to be dropped, so no call receives nil |
| DispatcherOwnership.OverlapLosesChannel | dhcpv4/nclient4/client.go:375-380 | a concrete run with overlap in which the `cancel` of one call closes the channel of the other: a matcher that accepts nil makes the other call return nil, and one that dereferences it panics |
| DispatcherProgress.RunIsSound | dhcpv4/nclient4/client.go:167-412 | every state of every run is safe, has its messages in order and no more of them in a channel than its capacity |
| DispatcherProgress.BlockedSenderIsServed | dhcpv4/nclient4/client.go:203-212 | when the loop is blocked sending with the lock held, the owner of the entry is not waiting for the lock and has an enabled step, without a timer, a context or a failed write on an open connection |
| DispatcherProgress.DeadlockFree | dhcpv4/nclient4/client.go:167-214 | in every reachable state some goroutine has a step that changes something, again without timers, contexts or failures on an open connection, or all wait for the world outside |
| DispatcherProgress.LockCanBeReleased | dhcpv4/nclient4/client.go:322-344 | from every reachable state at most six steps, only of the holder and of the call whose message it holds, free the lock, with no timer, no context and no failed write on an open connection |
| DispatcherSpin.SpinWasPossible | dhcpv4/nclient4/client.go:364-390 | after `Close`, no step of the program makes it possible for a call to receive nil over and over: if it is possible after the step, it was before |
| DispatcherSpin.DoomedAdvances | dhcpv4/nclient4/client.go:364-390 | a call that rejects nil, whose channel is closed or will be by a rival under its transaction ID, and for which nothing waits that its matcher accepts, has a step of the program after which that is still so, until it receives nil over and over |
| DispatcherShutdown.StepDecreasesIff | dhcpv4/nclient4/client.go:364-412 | once the connection and `done` are closed, a step of the program decreases an explicit measure if and only if it is not the receive of a nil that the matcher rejects, and that receive changes nothing |
| DispatcherShutdown.CloseTerminates | dhcpv4/nclient4/client.go:137-159 | after `Close` has closed both, every schedule of what is in flight changes something at most as often as the measure says; a state that no step changes has all calls and closers returned, the loop exited and `pending` empty; and where no call can come to receive nil over and over the schedule itself is that short |
| DispatcherShutdown.CloseTerminatesIff | dhcpv4/nclient4/client.go:364-390 | the schedules after `Close` are bounded by the measure if and only if no call can come to receive nil over and over |
| DispatcherShutdown.CanFinish | dhcpv4/nclient4/client.go:137-159 | even then some schedule ends with everything returned |
| DispatcherShutdown.NoOverlapNoSpin | dhcpv4/nclient4/client.go:322-337 | no call can if calls on one transaction ID never overlapped |
| DispatcherShutdown.TolerantNoSpin | dhcpv4/nclient4/client.go:375-380 | nor if every matcher in flight accepts nil or panics on it |
| DispatcherShutdown.OverlapSpins | dhcpv4/nclient4/client.go:375-380 | a concrete run with overlap and a matcher that rejects nil, after whose `Close` there are schedules of every length |
| Labels.JoinSplit | rfc1035label/label.go:143-153 | joining the parts of a name with dots gives the name back |
| Labels.SplitJoin | rfc1035label/label.go:143-153 | splitting undoes joining on parts without dots |
| Labels.LabelsFromBytes | rfc1035label/label.go:93-140 | the loop with its saved position and pointer flag computes the recursive reading of names with at most one pointer each, errors included, on every input; at most as many names as bytes; a bound on its iterations |
| Labels.DecodeTurn | rfc1035label/label.go:101-139 | the body of the loop: one turn of the cursor, or the error |
| Labels.TurnTracks | rfc1035label/label.go:101-139 | a turn keeps the variables of the loop in agreement with the recursive reading, and pays for the iteration |
| Labels.MaxIterationsIsQuadratic | rfc1035label/label.go:101-139 | the bound is n times n plus 2 |
| LabelEncoding.LabelToBytes | rfc1035label/label.go:143-153 | the loop writes the encoding of the parts and a zero |
| LabelEncoding.LabelsToBytes | rfc1035label/label.go:157-163 | the loop writes the encodings of the names one after the other |
| LabelEncoding.DecodeEncodable | rfc1035label/label.go:93-163 | names with parts of 1 to 191 bytes are decoded from wherever they stand encoded |
| LabelEncoding.DecodedFit | rfc1035label/label.go:101-139 | no decoded name has a part longer than 191 bytes |
| LabelEncoding.NamesCount | rfc1035label/label.go:101-112 | every empty part makes the decoder end a name: the exact number of names read back |
| LabelEncoding.RoundTripIff | rfc1035label/label.go:93-163 | a list of names is read back from its encoding if and only if every part of every nonempty name has 1 to 191 bytes |
| LabelEncoding.RfcNamesRoundTrip | rfc1035label/label.go:93-163 | the names that RFC 1035 allows are among those |
| LabelEncoding.CompressedName | rfc1035label/label.go:115-136 | a prefix and two bytes that are 0xc000 plus an offset, at which an uncompressed name stands, decode to prefix, dot, that name, and decoding goes on right after the pointer |
| LabelEncoding.DecodeLaw | rfc1035label/label.go:93-140 | decoding read off the wire for every buffer and position: whole parts up to where there is the end, a zero, a part cut off, a pointer cut off, or 0xc000 plus an offset, and there more parts up to an end, a zero, a second pointer or a part cut off, with the names or the error for each |
| LabelEncoding.LabelList.constructor | rfc1035label/label.go:65-69 | a new object is valid and empty |
| LabelEncoding.LabelList.FromBytes | rfc1035label/label.go:72-80 | keeps the bytes and their decoding together, and changes nothing on an error |
| LabelEncoding.LabelList.ToBytes | rfc1035label/label.go:45-57 | returns the cached bytes while they decode to the labels; in every valid state, after any edits, the result decodes to the current labels if and only if they are unedited or can be encoded |
| Duids.WireForms | dhcpv6/duid.go:123-157 | which bytes are which identifier, field by field, on every input, failures included |
| Duids.LengthIff | dhcpv6/duid.go:51-63 | `Length` is the serialised length if and only if a UUID has 16 bytes |
| Duids.ParsedIsNormal | dhcpv6/duid.go:123-157 | a parsed DUID sets no field that its kind does not have |
| Duids.RoundTripIff | dhcpv6/duid.go:81-157 | a DUID is read back if and only if it is normal |
| Duids.ReserialiseIff | dhcpv6/duid.go:123-157 | serialising a parsed DUID keeps the length, and gives the input back if and only if the hardware type is below 256 |
| V6Parser.FromBytes | dhcpv6/dhcpv6.go:74-83 | computes the recursive parse of a message or relay message of any depth, failures included |
| V6Parser.MessageFromBytes | dhcpv6/dhcpv6.go:32-48 | the same for a client message; fails on a relay type; a short header is completed with zeros |
| V6Parser.RelayMessageFromBytes | dhcpv6/dhcpv6.go:51-71 | the same for a relay message; fails on any other type; a missing address is nil |
| V6Parser.OptionsFromBytes | dhcpv6/options.go:168-191 | the loop over options, which goes on after a short body, computes the recursive parse of the list with either element parser, and fails on the same inputs |
| V6Parser.ParseOptionBytes | dhcpv6/options.go:34-89 | the dispatch over codes computes the parse of the option |
| V6Parser.ParseOptIA | dhcpv6/option_nontemporaryaddress.go:58-68 | the cursor code for identity associations computes the parse of the option, and fails on every short header |
| V6Parser.ParseOptIAAddress | dhcpv6/option_iaaddress.go:44-54 | the same for addresses |
| V6Parser.ParseOptIAPrefix | dhcpv6/option_iaprefix.go:73-84 | the same for prefixes |
| V6Parser.ParseOptVendorOpts | dhcpv6/option_vendor_opts.go:40-56 | the same for vendor options, whose elements stay code and bytes |
| V6Parser.ToBytes | dhcpv6/dhcpv6relay.go:57-65 | writes the serialisation of a relay or client message, header fields in order; fails (a nil dereference) if and only if some option at any depth was to hold a message and holds none |
| V6Parser.OptionsToBytes | dhcpv6/options.go:145-155 | the loop writes code, 16-bit length and body of every option, and fails on the same condition |
| V6Parser.OptionToBytes | dhcpv6/option_relaymsg.go:18-20 | writes the body of an option, recursively for options and messages inside it, and fails on the same condition |
| V6Parser.OptHeadToBytes | dhcpv6/option_iaprefix.go:27-35 | writes the fixed fields of the options that hold options |
| V6Leaves.Reserialise | dhcpv6/options.go:34-89 | for every option code, which bodies its parser accepts, and that an accepted body is what the option serialises to |
| V6Leaves.RoundTripIff | dhcpv6/options.go:34-89 | the fields of an option are read back from its bytes if and only if they are those of its code: items shorter than 65536 bytes, at least one of them, IPv6 addresses of 16 bytes, names that go with the bytes kept |
| V6Leaves.FromBytes | dhcpv6/options.go:34-89 | the dispatch over codes reads the fields of every option without options, or fails |
| V6Leaves.WordsFromBytes | dhcpv6/option_requestedoption.go:57-64 | the loop reads 16-bit numbers and fails on an odd byte |
| V6Leaves.ElapsedFromBytes | dhcpv6/option_elapsedtime.go:34-39 | exactly two bytes |
| V6Leaves.StatusFromBytes | dhcpv6/option_statuscode.go:40-46 | a code and whatever follows |
| V6Leaves.ClassesFromBytes | dhcpv6/option_userclass.go:43-54 | the loop accepts exactly the lists of length-prefixed items, and reads them |
| V6Leaves.UserClassesFromBytes | dhcpv6/option_userclass.go:43-54 | the same, and fails on no bytes |
| V6Leaves.VendorClassesFromBytes | dhcpv6/option_vendorclass.go:44-56 | the same behind an enterprise number, and fails without an item |
| V6Leaves.ServersFromBytes | dhcpv6/option_dnsrecursivenameserver.go:39-46 | the loop reads 16-byte addresses and fails on a rest |
| V6Leaves.RemoteFromBytes | dhcpv6/option_remoteid.go:53-59 | an enterprise number and whatever follows |
| V6Leaves.InterfaceFromBytes | dhcpv6/option_nii.go:83-90 | exactly three bytes |
| V6Leaves.ToBytes | dhcpv6/option_vendorclass.go:23-31 | writes the fields of any of them; names as the bytes they were read from unless edited |
| V6Wire.MessageLayout | dhcpv6/dhcpv6.go:32-48 | type, transaction ID and options, byte by byte |
| V6Wire.RelayLayout | dhcpv6/dhcpv6relay.go:57-65 | type, hops, link, peer and options: an IPv4 address goes out in its IPv6 form, and anything but 4 or 16 bytes not at all |
| V6Wire.KindIsRead | dhcpv6/dhcpv6.go:74-83 | a message is read as a relay if and only if its first byte is 12 or 13 |
| V6Wire.OptionLayout | dhcpv6/types.go:83-146 | the code on the wire of every kind of option, its length mod 65536 and its body |
| V6Wire.BodyLayout | dhcpv6/option_iaaddress.go:27-34 | the fixed fields of the options that hold options, in order |
| V6Wire.IPv4IsReadMapped | dhcpv6/dhcpv6relay.go:57-65 | a relay with IPv4 addresses is read back with their IPv6 forms |
| V6RoundTrip.HeadReads | dhcpv6/dhcpv6.go:32-71 | a header that is kept is read back, with the rest of the bytes behind it |
| V6RoundTrip.OptHeadReads | dhcpv6/option_iaaddress.go:27-54 | the header of an option that holds options is read back |
| V6RoundTrip.RoundTrip | dhcpv6/dhcpv6.go:32-83 | a well-formed message of any depth is parsed back from its serialisation |
| V6RoundTrip.AllRoundTrip | dhcpv6/options.go:145-191 | the same for lists of options |
| V6RoundTrip.OptionRoundTrip | dhcpv6/options.go:34-89 | the same for every option |
| V6RoundTrip.PrefixIsNotMsg | dhcpv6/options.go:145-155 | no message is parsed from a prefix that is 65536 bytes or more short of its serialisation, so that a length cut to 16 bits never reads back |
| V6RoundTrip.RoundTripOnlyIf | dhcpv6/dhcpv6.go:32-83 | only well-formed messages are parsed back |
| V6RoundTrip.RoundTripIff | dhcpv6/dhcpv6.go:32-83 | a message is parsed back from its serialisation if and only if it is well-formed, at every level |
| V6Reserialise.HeadReserialise | dhcpv6/dhcpv6.go:32-71 | a header serialises to no fewer bytes than it was read from, and to those bytes if and only if no number was missing |
| V6Reserialise.Reserialise | dhcpv6/dhcpv6relay.go:57-65 | serialising what was parsed never shortens it, and reproduces the input byte for byte if and only if no header at any level was completed and no hardware type was 256 or more |
| V6Reserialise.AllReserialise | dhcpv6/options.go:145-191 | the same for lists of options |
| V6Reserialise.OptionReserialise | dhcpv6/options.go:34-89 | the same for every option |
| V6Relay.GetOne | dhcpv6/options.go:106-113 | finds an option with the code if there is one |
| V6Relay.GetOneOption | dhcpv6/options.go:106-113 | the loop finds the first one |
| V6Relay.Decapsulate | dhcpv6/dhcpv6.go:105-118 | a client message is its own content; the content of a relay is strictly inside it; a missing option is the only cause of that error |
| V6Relay.DecapsulateIff | dhcpv6/dhcpv6.go:105-118 | the result of taking a relay apart, each success and each error if and only if: the first option with code 9, wherever it stands, decides, and without one there is no content |
| V6Relay.DecapsulateRelayIndex | dhcpv6/dhcpv6.go:124-150 | the loops select from the message taken apart: the innermost relay for -1, level `i + 1` otherwise, staying at the client message, with the error of a broken chain |
| V6Relay.DeeperIsAtIndex | dhcpv6/dhcpv6.go:144-149 | index `i` is `i + 1` single decapsulations |
| V6Relay.GetInnerMessage | dhcpv6/dhcpv6relay.go:95-110 | the loop returns what ends the chain: the client message or the error |
| V6Relay.InnermostHoldsInner | dhcpv6/dhcpv6.go:131-143 | index -1 fails exactly when `GetInnerMessage` does and with its error, and otherwise decapsulates to its result |
| V6RelayReply.UnwrapEncapsulated | dhcpv6/dhcpv6.go:155-173 | encapsulating works for types 12 and 13 only; it puts one relay in front with the given type, link and peer and one option, decapsulating undoes it, and nothing inside changes |
| V6RelayReply.WrappedCountsHops | dhcpv6/dhcpv6.go:155-173 | in a chain of any depth built by `EncapsulateRelay` from a client message, with any options added at each level, every relay counts the relays inside it, mod 256 |
| V6RelayReply.CollectRelays | dhcpv6/dhcpv6relay.go:132-146 | the first loop collects link, peer and the two options of every relay, or fails as unwrapping does |
| V6RelayReply.NewRelayReplFromRelayForw | dhcpv6/dhcpv6relay.go:116-161 | both loops together compute the reply, with the error cases in the order of the source |
| V6RelayReply.AnswersUnwrap | dhcpv6/dhcpv6relay.go:147-160 | taking a chain of answers apart gives the answers, the outermost first, and then the message |
| V6RelayReply.AnswersRetrace | dhcpv6/dhcpv6relay.go:147-160 | each of them answers the relay of the same level, with hops counting from 0 at the innermost mod 256 |
| V6RelayReply.ReplyRetracesForward | dhcpv6/dhcpv6relay.go:116-161 | there is a reply if and only if the forward chain ends in a client message; it has the same depth, link and peer at each level, the first interface-id and the first remote-id of that level and no other option behind the message, hops counting from 0 at the innermost mod 256, and the new message inside |
| V6RelayReply.SameHopsIff | dhcpv6/dhcpv6relay.go:147-151 | reply and forward have the same hop counts if and only if those of the forward counted the relays inside |
| V6RelayReply.RetracedIdentifiers | dhcpv6/dhcpv6relay.go:152-157 | looking up either identifier in an answer finds what looking it up in the forward relay found |
| V6RelayReply.ReplyToBuiltHasSameHops | dhcpv6/dhcpv6relay.go:116-161 | there is a reply to every chain that relay agents build with `EncapsulateRelay` around a client message, and it has the hop counts of that chain |
| V6RelayReply.AnswersReadBackIff | dhcpv6/dhcpv6relay.go:147-160 | a reply is parsed back from its bytes if and only if the message is well-formed and, at every level, the header of the answer is kept, the identifiers it copies are well-formed and the message inside it has fewer than 65536 bytes |
| V4Options.CollectJoins | dhcpv4/options.go:139-147 | the value of a code is what it was, followed by all its segments in order; a code is present if and only if it was or is mentioned |
| V4Options.ParseItems | dhcpv4/options.go:122-148 | options and pads in front of anything are collected, and the rest is parsed as if it stood alone |
| V4Options.AcceptIff | dhcpv4/options.go:114-165 | nonempty bytes are accepted if and only if they are pads and options followed by End and pads, or, without the End check, by nothing or a lone code; and what the map then holds, on an error too |
| V4Options.PadAndEnd | dhcpv4/options.go:128-163 | a byte 0 is skipped, and 255 ends the options, with nothing but zeros behind it |
| V4Options.CodeLengthData | dhcpv4/options.go:139-147 | any other byte is a code with a length and so many bytes of data, added to what the code had |
| V4Options.PaddingDoesNotMatter | dhcpv4/options.go:128-133 | pads between options and after End change nothing |
| V4Marshal.KeysAreThere | dhcpv4/options.go:169-178 | the sorted keys are exactly the keys of the map, strictly ascending |
| V4Marshal.ChunksJoin | dhcpv4/options.go:191-210 | the pieces of a value join up to it and say nothing about other codes |
| V4Marshal.ParseMarshalled | dhcpv4/options.go:114-211 | parsing a marshalled map finds every value but the empty ones |
| V4Marshal.ParsedKeys | dhcpv4/options.go:128-147 | parsing never makes an entry for padding or End |
| V4Marshal.RoundTripIff | dhcpv4/options.go:114-211 | a map of values of any length is read back, with or without the End check, if and only if it has no code 0 or 255 and no empty value |
| V4Marshal.ReadsAsCleanIff | dhcpv4/options.go:114-211 | any map at all is read as itself without code 255 and the empty values, if and only if it has no value under code 0 |
| V4Marshal.MarshalLength | dhcpv4/options.go:181-211 | every value takes its length and two bytes for every 255 or part of it |
| V4OptionMap.Options.constructor | dhcpv4/options.go:60 | a new map is empty |
| V4OptionMap.Options.Update | dhcpv4/options.go:86-88 | sets one code and leaves the others |
| V4OptionMap.LastOneCounts | dhcpv4/options.go:59-65 | of several options with one code the last one counts |
| V4OptionMap.OptionsFromList | dhcpv4/options.go:59-65 | the loop builds the map of the list |
| V4OptionMap.OnlyPads | dhcpv4/options.go:158-163 | the last loop succeeds exactly on padding |
| V4OptionMap.Options.FromBytesCheckEnd | dhcpv4/options.go:114-165 | the loop computes the specified parse in place, including what an error leaves behind |
| V4OptionMap.Options.FromBytes | dhcpv4/options.go:103-105 | the same without the End check |
| V4OptionMap.Options.SortedKeys | dhcpv4/options.go:169-178 | whatever the order of iteration, the result is the ascending list of the keys |
| V4OptionMap.WriteChunks | dhcpv4/options.go:192-210 | the inner loop appends the value in pieces of at most 255 bytes |
| V4OptionMap.Options.Marshal | dhcpv4/options.go:181-211 | appends the marshalled map to the buffer |
| V4OptionMap.Options.ToBytes | dhcpv4/options.go:93-95 | returns the marshalled map |
| V4Packet.NameReadsIff | dhcpv4/dhcpv4.go:274-288 | a name is read back from its zero-filled field if and only if it has no NUL |
| V4Packet.HwReadsIff | dhcpv4/dhcpv4.go:265-272 | a hardware address is read back if and only if it has at most 16 bytes and is not an unset Ethernet address |
| V4Packet.RoundTripIff | dhcpv4/dhcpv4.go:251-309 | a packet is read back from its bytes if and only if its addresses have 4 bytes, its hardware address and names fit as above and its options are kept |
| V4Packet.WireLayout | dhcpv4/dhcpv4.go:423-475 | every byte of every packet: numbers, addresses (zeros for nil, the first four bytes of any other), the hardware address and both names in fields of zeros, the length byte, cookie, options, End |
| V4Packet.ReadFields | dhcpv4/dhcpv4.go:251-309 | what every field of an accepted packet is read from |
| V4Packet.ReadsAsIff | dhcpv4/dhcpv4.go:251-475 | every packet comes back with addresses cut to four bytes or zeros, the hardware address cut or filled in, names up to their NUL and options without the empty ones and code 255, if and only if it has no value under option code 0; the header in any case |
| V4Packet.EncodedLength | dhcpv4/dhcpv4.go:433-475 | a packet takes 241 bytes and those of its options |
| V4Packet.AcceptIff | dhcpv4/dhcpv4.go:251-309 | bytes are a packet if and only if there are at least 240 of them, the cookie is right and the rest is empty or grammatical options with an End |
| V4Packet.ReparseIff | dhcpv4/dhcpv4.go:433-475 | a parsed packet can be serialised if and only if both names were terminated, and is then read back if and only if it has no unset Ethernet address and no empty option |
| V4Packet.FromBytes | dhcpv4/dhcpv4.go:251-309 | the cursor code computes the specified parse, with its three kinds of error |
| V4Packet.WriteIP | dhcpv4/dhcpv4.go:423-430 | zeros for nil, the first four bytes of any other address, and failure (a panic) on one to three bytes |
| V4Packet.WriteField | dhcpv4/dhcpv4.go:453-463 | copies into an array of zeros; a name must leave room for its NUL |
| V4Packet.ToBytes | dhcpv4/dhcpv4.go:433-475 | the buffer code writes the specified bytes, with each address at its place, and fails exactly where the source panics |
| Bsdp.ImageReads | dhcpv4/bsdp/boot_image.go:50-112 | what any image is read as from in front of any bytes, and that this is the image if and only if its type has 7 bits and its name at most 255 bytes |
| Bsdp.ImagesRoundTripIff | dhcpv4/bsdp/bsdp_option_boot_image_list.go:16-36 | a list of images is read back, with or without up to 4 more bytes, if and only if all of them fit |
| Bsdp.ImagesFromBytes | dhcpv4/bsdp/bsdp_option_boot_image_list.go:16-27 | the loop computes the specified list, and fails on a short name |
| Bsdp.ImagesToBytes | dhcpv4/bsdp/bsdp_option_boot_image_list.go:30-36 | the loop writes the images one after the other |
| Bsdp.VendorOptionsThereIff | dhcpv4/bsdp/option_vendor_specific_information.go:97-115 | there are vendor options if and only if option 43 has a value that is grammatical without an End, and they are what it says |
| Bsdp.BootImagesOf | dhcpv4/bsdp/option_vendor_specific_information.go:38-48 | the images of suboption 9, or none when a name in it is cut off |
| Bsdp.VendorOptionsIff | dhcpv4/bsdp/option_vendor_specific_information.go:97-115 | vendor options are found again in an option map if and only if they are kept and there are any |
| Bsdp.BootImagesIff | dhcpv4/bsdp/option_vendor_specific_information.go:38-48 | the list is found again in vendor options if and only if every image fits |
| Bsdp.BootImagesReachClient | dhcpv4/bsdp/option_vendor_specific_information.go:38-115 | a nonempty list of any length put in vendor options, put in a packet, serialised and parsed is recovered through both levels of splitting |
| Checksum.CalculateChecksum | dhcpv4/nclient4/ipv4.go:301-315 | the loop, with its odd byte first, folds the sum of the words mod 2^32 |
| Checksum.FoldIsOnesSum | dhcpv4/nclient4/ipv4.go:329-332 | folding once is the ones' complement sum: the residue mod 65535, and zero only for zero |
| Checksum.SumIsRightIff | dhcpv4/nclient4/ipv4.go:301-315 | the checksum is the ones' complement sum if and only if the accumulator did not wrap, or wrapped a multiple of 65535 times and is not zero |
| Checksum.SumIsOnesSum | dhcpv4/nclient4/ipv4.go:317-323 | no wrap happens in up to 131072 bytes, whatever the initial sum |
| Checksum.SumWraps | dhcpv4/nclient4/ipv4.go:301-315 | 131073 bytes of ones and an initial sum are summed wrongly |
| Checksum.SumConcat | dhcpv4/nclient4/ipv4.go:317-323 | summing an even part and then the rest on top of it is summing the whole |
| Checksum.CombineParts | dhcpv4/nclient4/ipv4.go:325-332 | combining the sums of an even part and of the rest gives the sum of the whole |
| Checksum.OddPartsDiffer | dhcpv4/nclient4/ipv4.go:317-323 | an odd first part gives a different sum |
| Checksum.SumAllIsOnesSum | dhcpv4/nclient4/ipv4.go:301-323 | a chain of checksums, each on top of the one before, is the ones' complement sum of all words |
| RawUdp.EncodeIPv4 | dhcpv4/nclient4/ipv4.go:193-204 | writes the header in place, over the bytes of the array and no others |
| RawUdp.EncodeUDP | dhcpv4/nclient4/ipv4.go:294-299 | writes the UDP header in place behind the IPv4 header |
| RawPacket.ChecksumOfThree | dhcpv4/nclient4/ipv4.go:338-342 | chains three checksums as the pseudo-header and the UDP checksum do |
| RawPacket.WriteIPHeader | dhcpv4/nclient4/ipv4.go:353-362 | encodes the header and sets its complemented checksum in place |
| RawPacket.WriteUDPHeader | dhcpv4/nclient4/ipv4.go:364-373 | encodes the UDP header and sets its complemented checksum in place |
| RawPacket.BuildInPlace | dhcpv4/nclient4/ipv4.go:344-373 | both headers, one behind the other in the one array that has room for the payload |
| RawPacket.Udp4Pkt | dhcpv4/nclient4/ipv4.go:344-376 | builds the datagram in one array |
| RawChecks.IPVerifies | dhcpv4/nclient4/ipv4.go:188-204 | the words of the header add up to all ones, for every payload size and any addresses |
| RawChecks.UDPSumCovers | dhcpv4/nclient4/ipv4.go:283-291 | summing payload, length and header on top of the pseudo-header covers all of them, odd payloads included |
| RawChecks.UDPVerifies | dhcpv4/nclient4/ipv4.go:344-376 | pseudo-header, UDP header and payload of up to 131072 bytes, odd or even, add up to all ones |
| RawChecks.ZeroChecksumIff | dhcpv4/nclient4/ipv4.go:369-373 | a zero checksum is sent if and only if what is covered adds up to a multiple of 65535 |
| RawChecks.ZeroChecksumHappens | dhcpv4/nclient4/ipv4.go:369-373 | for every payload and addresses some source port makes it so |
| RawChecks.IPv4FieldsRead | dhcpv4/nclient4/ipv4.go:193-204 | every field of an encoded IPv4 header, whatever it is, can be read at its place |
| RawChecks.SentIsWritten | dhcpv4/nclient4/ipv4.go:353-362 | what goes out for an address: four bytes, or the last four of a mapped one, or zeros |
| RawChecks.DatagramLayout | dhcpv4/nclient4/ipv4.go:344-376 | every byte of a built datagram but lengths and checksums: version, TOS, fragment, TTL 30, protocol 17, addresses, ports, payload |
| RawChecks.LengthsRightIff | dhcpv4/nclient4/ipv4.go:351-368 | the two lengths are right if and only if the payload has at most 65507 and 65527 bytes |
| RawConn.JudgePacket | dhcpv4/nclient4/conn_linux.go:132-153 | one turn of the read loop: skip, deliver, end of file or panic |
| RawConn.ReadFrom | dhcpv4/nclient4/conn_linux.go:117-155 | the first arrival that is not skipped decides |
| RawConn.MatchUdp | dhcpv4/nclient4/conn_linux.go:103-111 | decides whether a packet is for the bound address |
| RawConn.MatchesIff | dhcpv4/nclient4/conn_linux.go:103-111 | that is: no bound address, or the port and no IP, or the port and the same IPv4 address in either form; any other bound IP matches nothing |
| RawConn.AnyDatagramIsRead | dhcpv4/nclient4/conn_linux.go:117-155 | a datagram with any headers, IPv4 options included, is delivered if and only if it is UDP and for the bound address, with payload and sender from its headers |
| RawConn.AssembledIsRead | dhcpv4/nclient4/conn_linux.go:132-153 | a datagram with any checksums is read as addressed |
| RawConn.BuiltIsRead | dhcpv4/nclient4/conn_linux.go:117-155 | a built datagram of any size is delivered if and only if the connection is unbound, or bound to its port and to no IP, or to its port and its IPv4 address in either form; with its payload as far as there is room, and its sender |

## Left out

- V6Parser.ParseOptionBytes: inside a message, an option that holds neither options nor a message nor a DUID is kept as code and bytes; its fields are in V6Leaves, which also proves that accepting and serialising it is the same on bytes.
- V6RoundTrip.RoundTripIff: does not tell a typed leaf option from a generic one with the same code and bytes.
- V4Packet.WriteIP: an address shorter than four bytes fails; Go would slice into spare capacity behind it if there were any.
- V4OptionMap.Options.SortedKeys: the library's sort is modelled by insertion into a sorted sequence.
- Bsdp.VendorOptionsIff: an empty option value stands for nil, as parsing leaves it; a value that was set to an empty but non-nil slice is not told apart.
- RawChecks.UDPVerifies: says nothing about payloads above 131072 bytes, for which the accumulator can wrap; no IPv4 packet is that long.
- RawConn.JudgePacket: takes from Go that slicing an address out of a header shorter than 20 bytes reaches into the rest of the read buffer.
- DispatcherShutdown.CloseTerminates: bounds the number of steps, not time; there is no clock, no fairness and no probability in the model, while Go picks at random among the ready cases of a `select`, so that a call that receives nil over and over leaves by `done` with probability one.
- What recovers from a panic of a caller's matcher, if anything does: the panic is the outcome of the call, after its deferred `cancel`.
- The dispatcher's goroutines are a step system on values, not methods: the step system fixes what is atomic, which Go's memory model leaves to the mutex and the channels.
- `DiscoverOffer`, `Request` and the client's options: thin layers over `SendAndRead`.
- Sockets, file descriptors, goroutine creation, the synchronous and asynchronous clients and servers: input and output only.
- `Get`, `Add`, `Update` and `Del` on DHCPv6 option lists, and the message builders and modifiers: easy members.
- Single-value DHCPv4 and BSDP options: easy members.
- Printing, summaries and name tables.
- The netboot and ztp packages: calls to the system and string formats of vendors.
