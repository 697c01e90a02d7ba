# Verified model of the SRTP engine and the resampler

The project models two components in Dafny 4.11 and proves properties of them. `dafny verify
dfyconfig.toml` checks everything.

**The SRTP/SRTCP session engine** (`pjsip/components/srtp`, an adaptation of libsrtp 2.1): a linked list
of streams, one for each SSRC, and an optional template from which streams are cloned on demand. Each
stream estimates 48-bit packet indices from 16-bit sequence numbers, checks for replays, and encrypts and
authenticates packets in place; a live session can be re-keyed. It implements sections 3.3 and 3.4 of
RFC 3711, header extension encryption after RFC 6904, and the GCM layouts of RFC 7714.

**The fixed-point resampler** (`pjsip/components/resample/src/resamplesubs.c`): polyphase filter loops for
raising the rate and for both directions, and linear interpolation.

## How it is built

Every operation exists twice. A function on values says what it does; a method with the loops, buffers,
linked nodes and field updates of the source does it, and is proved equal to the function. The properties
are proved about the functions, and so hold of the methods. Where the fields of packets and vectors stand, and
what the octets of a protected packet are, is stated once more from the outside, on packets that are put
together from their fields.

| module | content |
|---|---|
| `Octets`, `SrtpStatus`, `Crypto` | octets and network order, status codes, the primitives as parameters |
| `ReplayWindow`, `RtcpReplay`, `IndexEstimate` | replay databases and index estimation |
| `HeaderExtension`, `InitVectors`, `RtpPacket`, `RtpInPlace` | one RTP packet, as a value and in place |
| `ExtensionFormats`, `WireFormat`, `ProtectedFormat`, `RtcpFormat` | packets put together from their fields, and their protected form |
| `SessionKey` | session keys, key usage limits, selection by MKI |
| `SessionModel`, `SessionInvariants` | the session state, protect and unprotect, and what they keep |
| `SessionRuns`, `VectorUniqueness`, `NetworkSafety`, `NetworkReplay`, `Erasure` | properties of whole runs |
| `ShortRuns`, `ReplayExactness` | runs that are known beforehand not to wrap, and how exact the replay check is after them |
| `RolloverRuns` | runs that use or accept an index twice, or refuse one that was not used |
| `Delivery`, `RtcpDelivery` | which packets are accepted, from sender to receiver |
| `StreamObjects`, `LiveSession`, `SessionSetup` | the session as linked heap objects, with ownership |
| `PolicyEffects` | what the settings of a policy mean for the streams |
| `Migration`, `TemplateUpdate` | re-keying a live session, as a function and on the heap |
| `StreamMap` | the list as a map from SSRC to stream |
| `RtcpPacket`, `RtcpInPlace`, `RtcpModel`, `RtcpSession` | SRTCP, from one packet to the live session |
| `RtcpRuns`, `RtcpRepeats`, `RtcpNetwork` | SRTCP over runs: vectors, repeated acceptance, authenticity |
| `FixedPoint`, `PolyphaseFilter`, `Convolution`, `Resampler`, `LinearResampler` | the resampler |

Some choices of the model:

- A packet is a sequence of octets, and in the methods the front of an array. The cryptographic primitives
  are functions of key, vector, position and message. Only `NetworkSafety` and `RtcpNetwork` assume more,
  namely that nobody but the sender makes a valid tag (`Unforged`, `RtcpUnforged`).
- `SessionState` holds the streams in list order, the template, and the usage limits of the key objects.
  `Session.Valid` ties it to the heap: the links form a finite list without repetition, each node has the
  state the model says, and everything that was allocated for the session is live and owned once
  (`Holds`). `others` is whatever else is live; operations that succeed leave it as it is, so they neither
  leak nor free what is not theirs. That nothing refers to a freed object follows (`NothingDangles`).
- Words wrap where the source's do: 64-bit indices and key counters, 32-bit rollover counters, and all
  arithmetic of the resampler. A right shift of a negative word rounds down.
- `pFactor` and the steps computed from it are exact real numbers.

## What the proofs brought out

- The index estimate disagrees with the returned difference in one case only, when the rollover counter is
  at its maximum and wraps (`EstimateIsIndexPlusDelta`). The database then goes on counting beyond 48 bits
  while the packets get the indices of an earlier lap. An index is used twice, or accepted after it was
  recorded, exactly if a packet laps onto it (`TraceIsFresh`, `AcceptedOnce`); four calls on a new stream
  suffice (`VectorIsSetTwice`, `PacketIsAcceptedTwice`). With fewer than 2^32 packets and counters that are
  far enough from the maximum it does not happen (`ShortRunIsLapFree`, `ShortDeliveryRepeatsNothing`).
- With a rollover counter pending, the authenticated cipher accepts an index that is ahead of the window
  without recording it or consuming the counter, so the same packet is accepted as often as it arrives
  (`UnprotectGuards`, `AcceptedForever`). It marks the current index instead, used or not, and a packet that
  nobody has sent before is then refused as a replay (`UnsentIndexIsRefused`). In a short run in which
  everything accepted is recorded this cannot be (`ReplayCheckIsExact`).
- Re-keying a template drops a pending rollover counter of the streams it moves (`UpdateKeepsAllIndicesIff`).
- The search by identifier subtracts without a guard: in a packet whose octets before the tag are fewer than
  an identifier it compares octets outside the packet (`ReadsOutsideIff`, `ShortPacketReadsOutside`).
- SRTCP uses one database for counting and for replay. Where one source both sends and receives, sending
  shifts the marks. An accepted packet is accepted again exactly if the shifted marks no longer refuse its
  index (`RtcpAgainInRunIff`), which cannot happen exactly in runs that send without gaps
  (`RtcpAcceptedOnceIff`); on a new stream one packet sent is enough, unless the index is 0
  (`RtcpAcceptedTwice`).
- The 32-bit form of the estimate with a given counter calls some packets ahead which the 64-bit form calls
  old; both refuse to treat them as ordinary, but only the first one advances (`ReducedVerdictAgrees`).
- The hard key limit refuses one packet only: the counter wraps below zero (`KeyExpiresOnSchedule`).
- Authenticated ciphers charge the key before they compare the tag, do not act on a pending rollover counter
  when sending, and do not jump when receiving; the model follows the code (`SenderIndex`, `Commit`).
- Without the authentication service unprotecting still subtracts the tag length; the round trip needs the
  service or an empty tag (`OpenSealed`).
- Adding a stream keeps SSRCs unique only if the caller sees to it (`AddKeepsUniqueIffNew`).
- Updating a specific stream loses it if its new policy is refused (`UpdateListed`). A refused addition of a
  second template, or of a policy with an undefined kind of SSRC, leaves allocated objects behind
  (`AddStream`, `LeftBehind`).
- The right wing of the filter drops the last entry of the table at every phase, while the source's comment
  speaks of phase one half. This is why reversal at phase zero needs its condition
  (`PhaseZeroReversal`, `PhaseZeroReversalFails`).
- Linear interpolation reads one sample past the input, even at factor 1 (`SrcLinear`).
- The mask for two-byte header extensions is the code's own (srtp.c:1398); no agreement with section 4.3 of
  RFC 5285 is claimed.

## Model

| member | source | states |
|---|---|---|
| `ReplayWindow.EstimateIsIndexPlusDelta` | pjsip/components/srtp/crypto/replay/rdbx.c:115-175 | The estimate carries the sequence number, fits 48 bits, and equals index plus difference if and only if the rollover counter is not at its maximum with the next one asked for. |
| `ReplayWindow.EstimateIsTruncated` | pjsip/components/srtp/crypto/replay/rdbx.c:115-175 | Past the start-up range the estimate is the 64-bit index plus the difference, cut to 48 bits, and the difference is at most half a sequence space, however often the rollover counter has wrapped. |
| `ReplayWindow.EstimateIsClosest` | pjsip/components/srtp/crypto/replay/rdbx.c:316-347 | No index with the same sequence number is nearer to the current index than the estimate. Past the start-up range it is at most half a sequence space away, and up to there it is the lowest such index. |
| `ReplayWindow.EstimateIsTheIndexIff` | pjsip/components/srtp/crypto/replay/rdbx.c:316-347 | A packet sent under index i is taken for what it is if and only if i is less than half a sequence space from the current index (of two that are exactly half away, the one with the same rollover counter), or, up to index 2^15, if i is of the first range of sequence numbers. |
| `ReplayWindow.CheckIsExact` | pjsip/components/srtp/crypto/replay/rdbx.c:262-278 | The replay check accepts exactly the indices that were not recorded and are not older than the window; the others are called old or repeated according to which of the two they are. |
| `ReplayWindow.AddIndexTracks` | pjsip/components/srtp/crypto/replay/rdbx.c:288-305 | Recording an index makes the database cover it as well and mark nothing else; the highest index never decreases. |
| `ReplayWindow.AdvanceTracks` | pjsip/components/srtp/crypto/replay/rdbx.c:375-395 | Jumping ahead by more than half a sequence space lands on an unused index and forgets none that a later check needs. |
| `RtcpReplay.CheckRdbIsExact` | pjsip/components/srtp/crypto/replay/rdb.c:74-98 | The SRTCP check accepts exactly the unused indices from the start of the window on, and calls the others old or repeated. |
| `RtcpReplay.AddRdbTracks` | pjsip/components/srtp/crypto/replay/rdb.c:104-128 | Recording an accepted SRTCP index keeps the database exact for the indices used so far; its 128 positions reach up to the highest of them. |
| `IndexEstimate.EstimateWithRocIsExact` | pjsip/components/srtp/srtp/srtp.c:1553-1626 | With a given rollover counter the verdict is ok exactly within half a sequence space of the current index, and then index plus difference is the estimate in spite of the cast to a 32-bit integer. |
| `IndexEstimate.ReducedVerdictAgrees` | pjsip/components/srtp/srtp/srtp.c:1564-1607 | The 32-bit computation accepts the same packets as the 64-bit one; the verdicts differ exactly when the given counter is more than one behind. |
| `SessionKey.KeyExpiresOnSchedule` | pjsip/components/srtp/crypto/kernel/key.c:86-120 | A key gives 2^48 - 2 uses before the hard limit, the last 2^16 - 1 of them flagged; the use after the refused one is a normal one again. |
| `SessionKey.GetSessionKeys` | pjsip/components/srtp/srtp/srtp.c:1513-1551 | The receiver finds the first slot whose identifier stands before the tag (or at the end, in GCM mode), and none if there is none. It says whether a comparison, by unsigned wrap-around, reads outside the packet; what is read there is taken to differ. |
| `SessionKey.ReadsOutsideIff` | pjsip/components/srtp/srtp/srtp.c:1535-1542 | A comparison reads outside exactly if an identifier that is tried is longer than what stands before the tag. |
| `SessionKey.EqualMkisFitIff` | pjsip/components/srtp/srtp/srtp.c:1535-1542 | With equally long identifiers, exactly if the octets before the tag are fewer than one identifier. |
| `SessionKey.ShortPacketReadsOutside` | pjsip/components/srtp/srtp/srtp.c:1535-1542 | A packet of 22 octets with a tag of 10 and identifiers of 16 is such a case. |
| `SessionKey.SealedSlotIsFound` | pjsip/components/srtp/srtp/srtp.c:809-838 | With equally long distinct identifiers and a packet at least as long, the search in a protected packet gives the slot the sender used, in both layouts. |
| `Delivery.SealedUnderNamedKey` | pjsip/components/srtp/srtp/srtp.c:809-821 | A packet that goes out is sealed under the master key whose number the caller gives, and under the first one if the caller gives none or one that does not exist, under an index that carries its sequence number. |
| `Delivery.NamedKeyIsFound` | pjsip/components/srtp/srtp/srtp.c:1513-1551 | With distinct identifiers the receiver is led to the key of that number. |
| `InitVectors.IcmIvInjective` | pjsip/components/srtp/srtp/srtp.c:2215-2250 | Equal counter mode vectors come from the same SSRC and the same 48-bit index. |
| `InitVectors.IcmIvFields` | pjsip/components/srtp/srtp/srtp.c:2215-2230 | The SSRC stands in octets 4 to 7 and the packet index in octets 8 to 13; the other octets are zero. |
| `InitVectors.BlocksAreDisjoint` | pjsip/components/srtp/crypto/cipher/aes_icm.c:254-280 | The number of a keystream block, counted from the vector on, determines SSRC, packet index and position in the packet, for up to 2^16 blocks in a packet. |
| `InitVectors.PlainIvFields` | pjsip/components/srtp/srtp/srtp.c:2231-2245 | Under the null cipher the vector holds the index in its last eight octets. |
| `InitVectors.GcmIvInjective` | pjsip/components/srtp/srtp/srtp.c:1468-1510 | The same for the salted GCM vector. |
| `InitVectors.GcmIvFields` | pjsip/components/srtp/srtp/srtp.c:1468-1510 | Two zeros, SSRC, rollover counter and sequence number stand in this order before salting; twelve octets are salted and four are zero. |
| `InitVectors.RocOctetsInjective` | pjsip/components/srtp/srtp/srtp.c:2254-2261 | The four octets that message authentication appends determine the rollover counter. |
| `InitVectors.RocOctetsValue` | pjsip/components/srtp/srtp/srtp.c:2254-2261 | They are the rollover counter in network order. |
| `HeaderExtension.ProcessTwice` | pjsip/components/srtp/srtp/srtp.c:1351-1436 | Processing the header extension twice restores it, with the same status, whether or not it succeeds. |
| `HeaderExtension.TransformTwice` | pjsip/components/srtp/srtp/srtp.c:1380-1433 | The walk over the elements is its own inverse, for both element formats and any keystream. |
| `HeaderExtension.TransformKeepsElements` | pjsip/components/srtp/srtp/srtp.c:1380-1433 | The second walk meets the same elements at the same places with the same identifiers. |
| `HeaderExtension.ElementsInside` | pjsip/components/srtp/srtp/srtp.c:1380-1433 | Every element lies inside the extension, after the end of the one before it. |
| `HeaderExtension.BodyOctet` | pjsip/components/srtp/srtp/srtp.c:1327-1345 | An octet of a listed element is combined with the keystream octet that follows all earlier headers and data, listed or not. |
| `HeaderExtension.OtherOctet` | pjsip/components/srtp/srtp/srtp.c:1351-1436 | Every other octet - headers, padding, elements that are not listed - stays as it is. |
| `HeaderExtension.ProcessHeaderEncryption` | pjsip/components/srtp/srtp/srtp.c:1351-1436 | The loop over the buffer, changes the extension as the walk says and nothing else. |
| `HeaderExtension.ProcessElements` | pjsip/components/srtp/srtp/srtp.c:1380-1433 | The in-place loop does what the walk says, ends inside the extension, and indexes its keystream below 257. |
| `Octets.XorIsExclusive` | pjsip/components/srtp/srtp/srtp.c:1385-1391 | A bit of an encrypted octet is set exactly if it is set in one of octet and keystream. |
| `ExtensionFormats.ItemsAssemble` | pjsip/components/srtp/srtp/srtp.c:1361-1433 | Every extension is made up, in either format, of elements with their padding and an end where the walk stops: nothing, an element that is cut short, the terminator, or a single octet. |
| `ExtensionFormats.WalkIsEncrypted` | pjsip/components/srtp/srtp/srtp.c:1361-1433 | Of such an extension the listed elements are combined with the keystream, which runs on over the octets of all elements, and all else stays; a parse error is returned exactly if an element is cut short. |
| `ExtensionFormats.ProfileDecides` | pjsip/components/srtp/srtp/srtp.c:1361-1433 | Profile 0xbede stands for one-octet headers, profiles whose 13 low bits are 0x100 for two-octet ones; any other is a parse error and nothing changes. |
| `RtpPacket.SameHeaderFields` | pjsip/components/srtp/srtp/srtp.c:72-98 | Packets that agree in header, sources and extension header have the same regions, SSRC and sequence number. |
| `RtpPacket.CryptKeepsHeader` | pjsip/components/srtp/srtp/srtp.c:2146-2160 | Encryption leaves everything that locates the regions unchanged. |
| `RtpPacket.CryptTwice` | pjsip/components/srtp/srtp/srtp.c:2279-2295 | Encrypting twice restores the packet, header extension included. |
| `RtpPacket.OpenSealed` | pjsip/components/srtp/srtp/srtp.c:2528-2699 | Unprotecting a protected packet with the same keys and index restores every octet and the length: any sources, extension, listed identifiers and MKI, for plain ciphers and GCM. |
| `WireFormat.PacketFields` | pjsip/components/srtp/srtp/srtp.c:72-98 | In a packet put together from its fields, sequence number, SSRC, number of sources, extension flag, profile, extension data and payload are read where they were written. |
| `WireFormat.FieldsAssemble` | pjsip/components/srtp/srtp/srtp.c:72-98 | Every packet that passes the header check is put together from fields in this way. |
| `ProtectedFormat.ProtectedFormatIs` | pjsip/components/srtp/srtp/srtp.c:2140-2331 | Octet by octet what protecting makes of the fields, keys and index: header and sources stay, extension elements and payload are combined with the keystream under the vector of the index, key identifier and tag follow. The tag covers the packet and the rollover counter; with the authenticated cipher, header and encrypted payload. It fails only if the extension cannot be parsed. |
| `RtpInPlace.CryptInPlace` | pjsip/components/srtp/srtp/srtp.c:2279-2295 | The in-place cipher calls change the packet at the front of the buffer as encryption says and nothing behind it. |
| `RtpInPlace.SealPlain` | pjsip/components/srtp/srtp/srtp.c:2162-2331 | Identifier, encryption and tag written in place give the protected packet. |
| `RtpInPlace.SealGcm` | pjsip/components/srtp/srtp/srtp.c:1716-1817 | The same for the authenticated cipher, where the identifier goes last. |
| `RtpInPlace.VerifyPlain` | pjsip/components/srtp/srtp/srtp.c:2520-2598 | Everything up to the tag comparison decides as specified and only reads the packet. |
| `RtpInPlace.VerifyGcm` | pjsip/components/srtp/srtp/srtp.c:1885-1940 | The tag comparison of the authenticated cipher, over header and ciphertext. |
| `RtpInPlace.OpenInPlace` | pjsip/components/srtp/srtp/srtp.c:2618-2699 | A verified packet is decrypted in place and loses its trailer. |
| `SessionInvariants.LapIsWrap` | pjsip/components/srtp/crypto/replay/rdbx.c:149-172 | While the index is within 48 bits, it laps exactly where the rollover counter is at its maximum and the sequence number asks for the next one; then the packet gets the bare sequence number as index. |
| `SessionInvariants.IndexFits` | pjsip/components/srtp/crypto/replay/rdbx.c:102-111 | As only 2^48 indices can be used, the 64-bit index of a guarded stream never wraps. |
| `SessionInvariants.GuessIsFresh` | pjsip/components/srtp/srtp/srtp.c:2182-2206 | An index that a guarded database accepts has been used before if and only if it laps onto it; one that is new is guarded against once it is recorded. |
| `SessionInvariants.PrepareSendGuards` | pjsip/components/srtp/srtp/srtp.c:2117-2206 | Without permission to repeat, a protect call uses an index that its SSRC has used if and only if it laps onto it; a new index, and all used so far, are guarded afterwards. |
| `SessionInvariants.FirstSendLap` | pjsip/components/srtp/srtp/srtp.c:2182-2206 | While the index is within 48 bits, that is: the rollover counter wraps, no counter is pending or the cipher is an authenticated one, and the bare sequence number was used. |
| `SessionInvariants.UnprotectGuards` | pjsip/components/srtp/srtp/srtp.c:2343-2699 | A refused packet changes no guard. An accepted one has an index that its SSRC has used if and only if it laps onto it; a new index is guarded afterwards if and only if the call records it, which it does unless the cipher is an authenticated one and the index is ahead of the window. |
| `SessionInvariants.FirstReceiveLap` | pjsip/components/srtp/srtp/srtp.c:2416-2435 | While the index is within 48 bits, lapping onto a used index means: no counter is pending, the rollover counter wraps, and the bare sequence number was used. |
| `SessionInvariants.SetRocGuards` | pjsip/components/srtp/srtp/srtp.c:4663-4674 | Setting a rollover counter disturbs no guard. |
| `SessionRuns.QuietGuards` | pjsip/components/srtp/srtp/srtp.c:3854-4386 | Protecting and unprotecting RTCP and setting rollover counters disturb no guard. |
| `VectorUniqueness.TraceIsFresh` | pjsip/components/srtp/srtp/srtp.c:2020-2699 | Over any run of RTP, RTCP and rollover calls, some pair of SSRC and index is used twice if and only if a packet that goes through laps onto a used index. |
| `VectorUniqueness.SameVectorIffSameId` | pjsip/components/srtp/srtp/srtp.c:1732-1763 | Under one cipher and salt two payload vectors are equal exactly if SSRC and index are; in counter mode, where the salt has no part, under one cipher alone. |
| `VectorUniqueness.NoVectorReuse` | pjsip/components/srtp/srtp/srtp.c:1732-1763 | So without repeated transmissions, and as long as no packet that goes through laps onto a used index, no payload vector is set twice under one cipher (and one salt, where the vector depends on it), over all streams of the session. |
| `VectorUniqueness.NoBlockReuse` | pjsip/components/srtp/crypto/cipher/aes_icm.c:254-280 | Nor is any keystream block in counter mode, in packets of up to 2^16 blocks. |
| `VectorUniqueness.LapReusesVector` | pjsip/components/srtp/srtp/srtp.c:1732-1763 | Otherwise two uses have the same SSRC and index, and if their keys are the same, the same vector. |
| `ShortRuns.ShortRunIsLapFree` | pjsip/components/srtp/crypto/replay/rdbx.c:149-172 | No packet laps onto a used index in a run whose input shows it beforehand: the rollover counters at the start and those that are set are at most r, and r, 1 and the number of RTP packets are at most 2^32. |
| `ShortRuns.ShortRunReusesNothing` | pjsip/components/srtp/srtp/srtp.c:1732-1763 | In such a run no pair of SSRC and index, and so no vector, is used twice. |
| `ReplayExactness.PlainRunsRecord` | pjsip/components/srtp/srtp/srtp.c:2659-2693 | In a session without authenticated ciphers every accepted packet of every run is recorded. |
| `ReplayExactness.ReplayCheckIsExact` | pjsip/components/srtp/crypto/replay/rdbx.c:262-278 | After a short run of a new session in which every accepted packet is recorded, the replay check on any sequence number that gets an index passes exactly if the index is unused and not older than the window: nothing used passes, and nothing unused in the window is refused. |
| `Delivery.PreparedIff` | pjsip/components/srtp/srtp/srtp.c:2087-2206 | A packet is given the index that it reaches, as far as the key of that number lasts, exactly if that index is not older than the window and is unused or may be repeated. One use of that key is counted in any case. |
| `Delivery.NextPacketGetsNextIndex` | pjsip/components/srtp/srtp/srtp.c:2182-2206 | The sequence number after the current one gets the next index, across every turn of the sequence numbers. |
| `Delivery.SealedIsDelivered` | pjsip/components/srtp/srtp/srtp.c:2343-2699 | A packet that was sealed under index i and reaches a listed stream with the same keys is accepted exactly if i is unused and not older than the window. Then it is restored, i is recorded and nothing else is; otherwise the session is as it was. The index reaches the stream if it is near, or of the first range at the start, or its rollover counter is the pending one. |
| `Delivery.PacketIsDelivered` | pjsip/components/srtp/srtp/srtp.c:2343-2699 | The same from session to session: what one protects the other accepts, under the same index and with its octets, exactly if it has not used that index and it is not older than the window. |
| `Delivery.DeliveredAfterRun` | pjsip/components/srtp/srtp/srtp.c:2343-2699 | The same after any short run in which everything accepted is recorded: exactly if the run has not used that index. |
| `Delivery.FirstPacketIsDelivered` | pjsip/components/srtp/srtp/srtp.c:2372-2390 | A source that is not listed gets a stream on the keys of the template with its first packet, if the index is below 2^16; the new stream has recorded that index only. |
| `Delivery.OrderlyPacketsArrive` | pjsip/components/srtp/srtp/srtp.c:2343-2699 | A sequence of packets of any length and over any number of turns of the sequence numbers is accepted, each with its octets, if no index comes twice, none is late by the window or more, and none leaps by half a sequence space. |
| `RolloverRuns.VectorIsSetTwice` | pjsip/components/srtp/crypto/replay/rdbx.c:156-172 | A run from a new stream that does it: packet 0, the last rollover counter, the last sequence number, packet 0 again. Its first and last packets have index 0 and the same vector. |
| `RolloverRuns.PacketIsAcceptedTwice` | pjsip/components/srtp/srtp/srtp.c:2416-2435 | The same run at the receiver accepts the sealed packet of index 0 twice, both times with its octets. |
| `RolloverRuns.AcceptedAgain` | pjsip/components/srtp/srtp/srtp.c:1820-2010 | Under the authenticated cipher, a packet accepted at an index ahead of the window leaves index and pending counter as they were, so the same packet is chosen and accepted again unless the key is at its limit. |
| `RolloverRuns.AheadIsAccepted` | pjsip/components/srtp/srtp/srtp.c:1820-2010 | Every packet sealed under a pending counter more than half a sequence space ahead is accepted in that way. |
| `RolloverRuns.AcceptedForever` | pjsip/components/srtp/srtp/srtp.c:1820-2010 | So it is accepted any number of times, as long as the key lasts. |
| `RolloverRuns.UnsentIndexIsRefused` | pjsip/components/srtp/srtp/srtp.c:1820-2010 | Under the authenticated cipher the second half fails: a new stream that has accepted one packet under a pending counter has used no index, and refuses every packet with sequence number 0 as a replay. |
| `NetworkSafety.AcceptedWasSent` | pjsip/components/srtp/srtp/srtp.c:2547-2597 | If nobody but the sender makes valid tags, a packet the receiver accepts was sent, under plain ciphers and GCM; both sides agree on the index even if the receiver guessed from a wrong state, because the tag covers the rollover counter, or the vector the index. |
| `NetworkSafety.ActKeeps` | pjsip/components/srtp/srtp/srtp.c:2343-2699 | Sending, delivering whatever the network makes up, RTCP and rollover counters on either side keep this for everything accepted so far. |
| `NetworkSafety.RunKeeps` | pjsip/components/srtp/srtp/srtp.c:2343-2699 | So do runs of any length. |
| `NetworkSafety.NetworkIsAuthentic` | pjsip/components/srtp/srtp/srtp.c:2307-2314 | So in every run each accepted packet was sent, and arrives with its octets and its index. |
| `NetworkReplay.AcceptedOnce` | pjsip/components/srtp/srtp/srtp.c:2416-2435 | In every run, whatever is delivered, a recorded index is accepted again if and only if a packet that goes through laps onto it. |
| `NetworkReplay.NetworkIsSafe` | pjsip/components/srtp/srtp/srtp.c:2307-2314 | Both together, over a network that drops, reorders, repeats and invents packets. |
| `ShortRuns.ShortDeliveryRepeatsNothing` | pjsip/components/srtp/srtp/srtp.c:2416-2435 | If the counters of the receiver are at most r, and r, 1 and the number of deliveries are at most 2^32, no recorded index is accepted again, whatever is delivered. |
| `Erasure.RejectionChangesNothing` | pjsip/components/srtp/srtp/srtp.c:2372-2598 | A packet that fails up to the tag comparison leaves streams, replay databases, directions, pending counters, key limits and the packet as they were. |
| `Erasure.ErasureIsInvisible` | pjsip/components/srtp/srtp/srtp.c:2372-2598 | Deleting all such calls, and all calls that refuse an RTCP packet, from any run of packets, rollover counters, removals, additions and re-keying changes neither the final state nor the result of any other call. |
| `StreamObjects.NoDuplicatesSplit` | pjsip/components/srtp/srtp/srtp.c:346-468 | Freeing a list of objects once means freeing both halves once, and nothing in both. |
| `StreamObjects.Kernel.Free` | pjsip/components/srtp/srtp/srtp.c:346-468 | Only a live object may be freed, so nothing is freed twice. |
| `StreamObjects.DeallocStream` | pjsip/components/srtp/srtp/srtp.c:346-468 | Deallocation frees exactly what the stream owns: its identifiers, table, window and itself, and the key objects and extension list it does not share with the template slot of the same number. |
| `StreamObjects.CloneOwned` | pjsip/components/srtp/srtp/srtp.c:478-581 | A clone owns its identifiers, table, window and itself, and shares everything else. |
| `StreamObjects.CloneStream` | pjsip/components/srtp/srtp/srtp.c:478-581 | Cloning allocates exactly what the clone owns and gives the state of a clone. |
| `StreamObjects.AllocStream` | pjsip/components/srtp/srtp/srtp.c:187-340 | Setting up a stream allocates exactly what it owns when held against no template, for the keys of the policy. |
| `StreamObjects.IndependentOwned` | pjsip/components/srtp/srtp/srtp.c:346-468 | A stream that shares nothing owns the same whichever template it is held against. |
| `StreamObjects.DisjointIndependent` | pjsip/components/srtp/srtp/srtp.c:355-380 | Streams of disjoint origin share nothing, slot by slot, if the template has at least as many slots. |
| `StreamObjects.ReferredIsOwned` | pjsip/components/srtp/srtp/srtp.c:346-468 | Everything a stream refers to is owned by it or referred to by the template. |
| `LiveSession.Session.constructor` | pjsip/components/srtp/srtp/srtp.c:2885-2899 | A new session is empty and owns itself. |
| `LiveSession.Session.ValidNothingDangles` | pjsip/components/srtp/srtp/srtp.c:346-468 | In a valid session all that streams and template refer to is live: ciphers, authentication objects, limits, extension lists, tables and windows. |
| `LiveSession.Session.GetStream` | pjsip/components/srtp/srtp/srtp.c:2766-2780 | Walking the links finds the first stream with the SSRC, or nothing. |
| `LiveSession.Session.CloneAtHead` | pjsip/components/srtp/srtp/srtp.c:2064-2082 | A clone of the template becomes the head of the list; the session owns exactly the objects that were allocated for it. |
| `LiveSession.Session.RecordSend` | pjsip/components/srtp/srtp/srtp.c:2178-2206 | The index of a packet to send is chosen, checked and recorded, for plain and authenticated ciphers. |
| `LiveSession.Session.ProtectMki` | pjsip/components/srtp/srtp/srtp.c:2020-2334 | Protecting on the linked list and the buffer gives the state, status and packet of the specification. |
| `LiveSession.Session.ChooseLive` | pjsip/components/srtp/srtp/srtp.c:2372-2455 | Stream, index and key slot for a received packet are those of the specification; nothing is changed. |
| `LiveSession.Session.UnprotectMki` | pjsip/components/srtp/srtp/srtp.c:2343-2699 | Unprotecting on the linked list and the buffer gives the state, status and packet of the specification; a packet refused up to the tag comparison leaves the whole buffer alone. |
| `LiveSession.Session.RemoveStream` | pjsip/components/srtp/srtp/srtp.c:2918-2949 | The first stream with the SSRC is unlinked and exactly what it owns is freed; nothing the rest refers to is (`NothingDangles`). |
| `LiveSession.Session.SetStreamRoc` | pjsip/components/srtp/srtp/srtp.c:4663-4674 | The counter is pending on that stream only. |
| `LiveSession.Session.Dealloc` | pjsip/components/srtp/srtp/srtp.c:2782-2814 | Every object allocated for the session is freed exactly once, and nothing else. |
| `LiveSession.Unlink` | pjsip/components/srtp/srtp/srtp.c:2929-2941 | Taking a node out leaves a list of the other nodes in order. |
| `LiveSession.OwnersConcat` | pjsip/components/srtp/srtp/srtp.c:2782-2814 | What a list owns is what its parts own, in order. |
| `LiveSession.RemovedOwns` | pjsip/components/srtp/srtp/srtp.c:2918-2949 | Without the removed stream the session holds exactly the rest of its objects, all of them live. |
| `LiveSession.ClonePrepended` | pjsip/components/srtp/srtp/srtp.c:2064-2082 | With a clone at the head the session holds exactly its objects and those of the clone. |
| `SessionSetup.AddStream` | pjsip/components/srtp/srtp/srtp.c:2817-2875 | A specific stream goes to the head, a wildcard policy becomes the template if there is none; new keys have their full number of uses. On success the session owns all that was allocated; on failure it is unchanged and what stays allocated is exactly `LeftBehind`: a stream set up for the refused policy, less the stream itself if the kind of SSRC is undefined. |
| `SessionSetup.Create` | pjsip/components/srtp/srtp/srtp.c:2877-2915 | A session is created exactly if all policies are well-formed and at most one is a wildcard. It has, last one first, a new stream with the keys, services, window and identifiers of each specific policy, the template of the wildcard one, and all keys unused. If a policy is refused, the session is freed again, and exactly what was left behind for that policy stays allocated. |
| `SessionSetup.NewTemplateIndependent` | pjsip/components/srtp/srtp/srtp.c:2848-2863 | Streams listed before share nothing with a new template. |
| `SessionSetup.OwnersIndependent` | pjsip/components/srtp/srtp/srtp.c:346-468 | So they own the same as before. |
| `PolicyEffects.AcceptedPolicies` | pjsip/components/srtp/srtp/srtp.c:2817-2875 | A session can be created from exactly the lists in which every policy has 1 to 16 master keys with identifiers of up to 128 octets, a window of 64 to 2^15 - 1 or the default, and a kind of SSRC, and at most one is a wildcard. |
| `PolicyEffects.KeysOfPolicy` | pjsip/components/srtp/srtp/srtp.c:850-1190 | Each slot of a new stream has the RTP keys of the policy, with an extension cipher exactly if identifiers are listed, and its RTCP keys with their own salt. |
| `PolicyEffects.WindowOfPolicy` | pjsip/components/srtp/srtp/srtp.c:1217-1223 | A new stream has index 0, remembers nothing, and its window holds the number of indices that the policy asks for, 128 by default, and fewer than 32 more. |
| `PolicyEffects.WindowReachesBack` | pjsip/components/srtp/crypto/math/datatypes.c:312-331 | So in every state the session reaches no index is refused as old that is less than this number behind the highest. |
| `PolicyEffects.SameSettingsArePeers` | pjsip/components/srtp/srtp/srtp.c:850-1190 | Streams that are set up in two sessions with the same keys and services can open what the other seals, for RTP and RTCP. |
| `PolicyEffects.FirstPacketArrives` | pjsip/components/srtp/srtp/srtp.c:2020-2699 | Between such streams the first packet goes out under its sequence number as index, and is accepted with its octets. |
| `Migration.MigrateIs` | pjsip/components/srtp/srtp/srtp.c:2997-3068 | With unique SSRCs the loop moves exactly the streams on the keys of the template, last one first, and leaves the others in their order. |
| `Migration.Rearranged` | pjsip/components/srtp/srtp/srtp.c:2997-3068 | The streams afterwards are the streams before, rearranged, each either untouched or on the new keys. |
| `Migration.UpdateKeepsStreams` | pjsip/components/srtp/srtp/srtp.c:2997-3068 | The SSRCs stay the same and unique; looking one up gives its stream with the index and the RTCP replay database it had. |
| `Migration.UpdateKeepsIndices` | pjsip/components/srtp/srtp/srtp.c:3015-3050 | After the update every packet gets the index it would have got, if its stream stays or no counter is pending; under the authenticated cipher in any case when sending. The RTCP database is kept. |
| `Migration.UpdateKeepsAllIndicesIff` | pjsip/components/srtp/srtp/srtp.c:3015-3050 | With a counter pending on a stream that moves, some packet gets another index, unless the counter is the current one and the index in the middle of its range. Only the index is compared, not the verdict or the difference. |
| `Migration.UpdateDropsCounter` | pjsip/components/srtp/srtp/srtp.c:550-571 | Counter 7 pending at index 100000 is a case in which no packet keeps its index. |
| `TemplateUpdate.FindShared` | pjsip/components/srtp/srtp/srtp.c:3002-3011 | The search finds the first stream on the keys of the template. |
| `TemplateUpdate.MoveOne` | pjsip/components/srtp/srtp/srtp.c:3015-3050 | One pass removes a stream by its SSRC and puts its successor on the new list, each object freed or owned once. |
| `TemplateUpdate.MoveShared` | pjsip/components/srtp/srtp/srtp.c:2997-3052 | The loop ends, as each pass shortens the list, and has moved what the specification moves. |
| `TemplateUpdate.JoinLists` | pjsip/components/srtp/srtp/srtp.c:3057-3066 | Appending the old list to the new one gives the concatenation. |
| `TemplateUpdate.Replaced` | pjsip/components/srtp/srtp/srtp.c:3053-3066 | After freeing the old template the session holds exactly its objects, and neither a stream nor the new template refers to a freed one. |
| `TemplateUpdate.UpdateTemplateStreams` | pjsip/components/srtp/srtp/srtp.c:2974-3068 | The whole update on the live session: its result is the specified migration, what the old template owned is freed and no longer live, nothing leaks and nothing dangles. |
| `TemplateUpdate.UpdateListed` | pjsip/components/srtp/srtp/srtp.c:3071-3107 | A listed stream is set up again with the index and the RTCP replay database it had; if setting up fails, the stream is gone. Nothing leaks and nothing dangles. |
| `StreamMap.FindIsLookup` | pjsip/components/srtp/srtp/srtp.c:2766-2780 | Walking the list is looking up in a map from SSRC to stream. |
| `StreamMap.PrependIsInsert` | pjsip/components/srtp/srtp/srtp.c:2064-2082 | Putting a stream with a new SSRC at the head is inserting it. |
| `StreamMap.AddKeepsUniqueIffNew` | pjsip/components/srtp/srtp/srtp.c:2864-2867 | Adding a stream keeps the SSRCs unique exactly if its SSRC is new; the library does not check. |
| `StreamMap.WithoutIsDelete` | pjsip/components/srtp/srtp/srtp.c:2929-2941 | Unlinking is deleting. |
| `StreamMap.ProtectTouches` | pjsip/components/srtp/srtp/srtp.c:2063-2087 | Protecting a packet changes at most the entry of its SSRC: a stream there keeps its keys, services, identifiers and window size, and a new one has those of the template. |
| `StreamMap.UnprotectTouches` | pjsip/components/srtp/srtp/srtp.c:2659-2693 | So does unprotecting one. |
| `StreamMap.ProtectRtcpTouches` | pjsip/components/srtp/srtp/srtp.c:3888-3912 | So does protecting an RTCP packet. |
| `StreamMap.UnprotectRtcpTouches` | pjsip/components/srtp/srtp/srtp.c:4345-4385 | So does unprotecting one. |
| `StreamMap.RemoveIsDelete` | pjsip/components/srtp/srtp/srtp.c:2918-2949 | Removal deletes the entry and succeeds exactly if there is one. |
| `StreamMap.MigrateIsMap` | pjsip/components/srtp/srtp/srtp.c:2997-3068 | Re-keying applies the change of keys to each entry. |
| `StreamMap.RunKeepsUnique` | pjsip/components/srtp/srtp/srtp.c:2766-2941 | In every state reached by a run that adds only new SSRCs, each SSRC is listed at most once. |
| `RtcpPacket.RtcpIvInjective` | pjsip/components/srtp/srtp/srtp.c:3995-4028 | Equal SRTCP vectors come from the same SSRC and index, in counter mode and GCM. |
| `RtcpPacket.TrailerReadBack` | pjsip/components/srtp/srtp/srtp.c:4196-4248 | The receiver reads the E bit and the 31-bit index that the sender wrote. |
| `RtcpPacket.SealedRtcpLayout` | pjsip/components/srtp/srtp/srtp.c:3945-3980 | Trailer and tag are where the receiver, counting from the end, looks for them. |
| `RtcpPacket.CryptRtcpTwice` | pjsip/components/srtp/srtp/srtp.c:4045-4051 | Encryption is its own inverse and leaves the header alone. |
| `RtcpPacket.RtcpRoundTrip` | pjsip/components/srtp/srtp/srtp.c:3945-4066 | For every counter value before the last and every receiver that has not seen the index, unprotecting restores the packet, recovers the index and marks it. |
| `RtcpFormat.RtcpFieldsRead` | pjsip/components/srtp/srtp/srtp.c:3880-3890 | In an RTCP packet put together from its fields the SSRC is read where it was written. |
| `RtcpFormat.RtcpFieldsAssemble` | pjsip/components/srtp/srtp/srtp.c:3880-3890 | Every packet of at least eight octets is put together in this way. |
| `RtcpFormat.RtcpFormatIs` | pjsip/components/srtp/srtp/srtp.c:3945-4066 | Octet by octet what protecting makes of the fields, keys and index: all but the header is combined with the keystream, the E bit and the index follow in 32 bits, then identifier and tag; with an authenticated cipher the tag comes first. |
| `RtcpDelivery.RtcpSealedUnderNamedKey` | pjsip/components/srtp/srtp/srtp.c:3925-3990 | Sending succeeds exactly if the header is complete, there is a stream or a template, and the counter is below 2^31 - 1; the packet is sealed under the next value and the master key whose number the caller gives, or the first. |
| `RtcpDelivery.RtcpIsDelivered` | pjsip/components/srtp/srtp/srtp.c:4105-4385 | An SRTCP packet that reaches a stream with the same keys is accepted exactly if its index is unused and not before the window; then it is restored and its index recorded, otherwise nothing changes. |
| `RtcpRuns.SentOnce` | pjsip/components/srtp/srtp/srtp.c:3983-3990 | Over any run of RTP, RTCP and rollover calls from any session, no pair of SSRC and SRTCP index is sent under twice: counters never go back, and stop instead of wrapping. |
| `RtcpRuns.RtcpVectorsNeverRepeat` | pjsip/components/srtp/crypto/replay/rdb.c:130-138 | So in what a session sends, over all its streams, no SRTCP vector occurs twice under one cipher (and one salt, where the vector depends on it). |
| `RtcpRuns.RtcpBlocksNeverRepeat` | pjsip/components/srtp/crypto/cipher/aes_icm.c:254-280 | Nor does any keystream block in counter mode. |
| `RtcpRuns.CountingRefusesIff` | pjsip/components/srtp/crypto/replay/rdb.c:130-138 | Counting up moves the marks of received indices with the window: an index stays refused if and only if it is at the start of the window or the one before it is marked. |
| `RtcpRuns.CountingForgets` | pjsip/components/srtp/crypto/replay/rdb.c:130-138 | A database that has seen index 5 alone passes it again after counting up once. |
| `RtcpRuns.SentRefusedIff` | pjsip/components/srtp/srtp/srtp.c:3983-3990 | Sending for a source keeps all its received indices refused if and only if they have no gaps above the start of the window. |
| `RtcpRuns.RtcpAcceptedOnce` | pjsip/components/srtp/srtp/srtp.c:4243-4250 | Over any run that sends without such gaps, whatever arrives, no SRTCP index of a source is accepted twice, from any session that refuses the indices used so far. |
| `RtcpRuns.SilentRunIsGapFree` | pjsip/components/srtp/srtp/srtp.c:4243-4250 | A run that sends no RTCP is one. |
| `RtcpRepeats.RtcpAgainIff` | pjsip/components/srtp/srtp/srtp.c:4165-4340 | Once a packet has been accepted, a session that lists its source with the same keys and services accepts it, under the same index, if and only if its database does not refuse that index. |
| `RtcpRepeats.RtcpAgainInRunIff` | pjsip/components/srtp/srtp/srtp.c:4243-4250 | So after any run of RTP, RTCP and rollover calls it is accepted again if and only if the database which that run has reached does not refuse its index. |
| `RtcpRepeats.RtcpAcceptedOnceIff` | pjsip/components/srtp/srtp/srtp.c:3983-3990 | A run sends without gaps among the received indices if and only if, at no point of it, there is a packet that would be accepted under an index accepted before. |
| `RtcpRepeats.RtcpAcceptedTwice` | pjsip/components/srtp/crypto/replay/rdb.c:130-138 | The run that does it, for every index but 0: a new stream accepts a packet, one SRTCP packet is sent for the same source, and the same packet is accepted again, both times with its octets. |
| `RtcpNetwork.AcceptedRtcpWasSent` | pjsip/components/srtp/srtp/srtp.c:4196-4300 | If nobody but the sender makes valid SRTCP tags, a packet the receiver accepts was sent, under the same index and SSRC, and arrives with its octets: the tag covers the E bit and the index, or the vector does. |
| `RtcpNetwork.SentIsLogged` | pjsip/components/srtp/srtp/srtp.c:3945-4066 | What counts as sent is what a successful call sealed: the packet it returns is the original, protected under that configuration and index. |
| `RtcpNetwork.RtcpIsAuthentic` | pjsip/components/srtp/srtp/srtp.c:4077-4386 | So in every run of RTP, RTCP and rollover calls on both sides each accepted SRTCP packet was sent. |
| `RtcpPacket.SealedRtcpSlotIsFound` | pjsip/components/srtp/srtp/srtp.c:4153-4160 | The search by identifier finds the slot of an SRTCP packet if its tag is as long as the RTP one, or the cipher is an authenticated one. |
| `RtcpInPlace.SealRtcpInPlace` | pjsip/components/srtp/srtp/srtp.c:3945-4066 | Trailer, identifier, encryption and tag written in place give the protected packet, in both layouts. |
| `RtcpInPlace.OpenRtcpInPlace` | pjsip/components/srtp/srtp/srtp.c:4165-4340 | Unprotecting in place gives the specified verdict and packet; a refused packet is left as it was. |
| `RtcpModel.RefusedRtcpChangesNothing` | pjsip/components/srtp/srtp/srtp.c:4105-4300 | A refused RTCP packet changes nothing at all. |
| `RtcpModel.SentRtcpKeepsRtp` | pjsip/components/srtp/srtp/srtp.c:3874-4066 | Sending RTCP disturbs no RTP replay database, pending counter or key limit. |
| `RtcpModel.ReceivedRtcpKeepsRtp` | pjsip/components/srtp/srtp/srtp.c:4105-4385 | Neither does receiving it. |
| `RtcpSession.ProtectRtcpMkiLive` | pjsip/components/srtp/srtp/srtp.c:3854-4066 | Protecting RTCP on the live session gives the state, status and packet of the specification. |
| `RtcpSession.UnprotectRtcpMkiLive` | pjsip/components/srtp/srtp/srtp.c:4077-4386 | So does unprotecting; a refused packet leaves session and buffer as they were. |
| `FixedPoint.BitRoundedIsNearest` | pjsip/components/resample/src/resamplesubs.c:171-174 | Rounding by the bit test is rounding to nearest with ties upwards, for every signed number. |
| `FixedPoint.RoundedProductBound` | pjsip/components/resample/src/resamplesubs.c:153-193 | A rounded product is at most twice its coefficient, for every 16-bit sample. |
| `FixedPoint.WordToHwordSaturates` | pjsip/components/resample/src/resamplesubs.c:87-100 | The conversion rounds and saturates exactly when adding half a unit does not wrap; otherwise a large positive value comes out negative. |
| `FixedPoint.SaturatedIsNearest` | pjsip/components/resample/src/resamplesubs.c:87-100 | No other sample is nearer to the exact quotient. |
| `PolyphaseFilter.FilterUp` | pjsip/components/resample/src/resamplesubs.c:142-194 | The fast loop adds up the entries, interpolations and samples it should, and reads inside the buffer. |
| `PolyphaseFilter.FilterUD` | pjsip/components/resample/src/resamplesubs.c:197-242 | The same for the general loop. |
| `PolyphaseFilter.FastWingIsWing` | pjsip/components/resample/src/resamplesubs.c:216-241 | With a step of one filter period both loops read the same entries, weights and samples. |
| `Convolution.WingIsTotal` | pjsip/components/resample/src/resamplesubs.c:165-193 | In 32-bit arithmetic a wing is the sum of the rounded exact products, modulo the word size. |
| `Convolution.WingDoesNotOverflow` | pjsip/components/resample/src/resamplesubs.c:216-241 | If twice the sum of the coefficients read fits a word, no operation of the loop overflows, whatever the samples. |
| `Convolution.WingsAreConvolution` | pjsip/components/resample/src/resamplesubs.c:264-274 | The two wings add up every sample within reach once, weighted by the symmetric response at its distance from the current time. |
| `Convolution.ConstantWing` | pjsip/components/resample/src/resamplesubs.c:216-241 | Over equal samples a wing adds up to the sample times the sum of the coefficients it reads, within half a unit for each. |
| `Convolution.PhaseZeroReversal` | pjsip/components/resample/src/resamplesubs.c:153-163 | At phase zero the result does not depend on the direction of time about the current sample, unless the table ends one entry after whole filter periods. |
| `Convolution.PhaseZeroReversalFails` | pjsip/components/resample/src/resamplesubs.c:157-159 | For every table length that does, there are a table and samples for which it does depend. |
| `Resampler.TimeStaysInside` | pjsip/components/resample/src/resamplesubs.c:260-284 | If the input length times the square of the factor is at most 2^15, no output is taken at or beyond the end of the input, in spite of the rounding of the step, and the 32-bit time does not wrap. |
| `Resampler.DownTaps` | pjsip/components/resample/src/resamplesubs.c:305-329 | Lowering the rate down to a sixteenth, the rounded filter step does not lead beyond the margin. |
| `Resampler.StepReadsInside` | pjsip/components/resample/src/resamplesubs.c:368-376 | At every step of a conversion, up or down, both wings read within the margins the library asks for. |
| `Resampler.SampleIsConvolved` | pjsip/components/resample/src/resamplesubs.c:272-278 | An output sample depends only on the exact sums of the two wings. |
| `Resampler.SampleDoesNotOverflow` | pjsip/components/resample/src/resamplesubs.c:274-282 | If the gain leaves room, nothing overflows and the output is the scaled convolution, rounded to nearest and saturated. |
| `Resampler.ConstantIsScaled` | pjsip/components/resample/src/resamplesubs.c:356-363 | The same for one output at any time; the bound counts the rounding of the taps, of the sum, of the gain factor and of the result. |
| `Resampler.FastConversionIsGeneral` | pjsip/components/resample/src/resamplesubs.c:247-331 | For raising the rate, the fast conversion and the general one give the same output, whatever the tables and samples. |
| `Resampler.SrcUp` | pjsip/components/resample/src/resamplesubs.c:247-286 | The fast conversion loop writes exactly the specified number of samples, and nothing behind them. |
| `Resampler.SrcUD` | pjsip/components/resample/src/resamplesubs.c:291-331 | The same for the general loop. |
| `Resampler.Resample` | pjsip/components/resample/src/resamplesubs.c:340-366 | The choice between the loops does not show in the output. Over equal samples, if the gain leaves room, each output is the sample times the sum of the coefficients read, times the scale of the filter, reduced by the factor when lowering the rate, within rounding. |
| `LinearResampler.InterpolatedIsBetween` | pjsip/components/resample/src/resamplesubs.c:124-134 | Nothing overflows, saturation never applies, and the result is the weighted mean rounded to nearest, between the two samples. |
| `LinearResampler.OutputsBetween` | pjsip/components/resample/src/resamplesubs.c:104-140 | Every output lies between two neighbouring inputs. |
| `LinearResampler.ConstantSignal` | pjsip/components/resample/src/resamplesubs.c:104-140 | A constant signal stays constant. |
| `LinearResampler.SameRate` | pjsip/components/resample/src/resamplesubs.c:104-140 | At factor 1 the conversion is the identity. |
| `LinearResampler.SrcLinear` | pjsip/components/resample/src/resamplesubs.c:104-140 | The loop writes the specified number of interpolated samples; it reads one sample past the input. |

## Left out

- The ciphers, message authentication and key derivation themselves, and the statuses of their failures:
  they are parameters, with a universal hash prefix of length 0.
- EKT: its allocation always yields nothing, so it is treated as absent.
- The build without 64-bit arithmetic, apart from `ReducedVerdictAgrees`.
- Failure of memory allocation, and the partial clean-up that goes with it.
- The order of writes into the packet before a call that fails: with another status than ok, `ProtectMki`
  and `ProtectRtcpMkiLive` say nothing about the buffer, as the library's interface promises nothing.
- RtpInPlace.VerifyPlain: refuses a packet that is shorter than its trailer; the source compares pointers
  before the start of the packet there, which this model does not express.
- SessionKey.GetSessionKeys: does not say what a comparison outside the packet finds; it counts as different,
  so the session methods take such a packet as one without that identifier.
- The replay windows as words: they are sequences of booleans.
- Events, logs, debug output, user data, profiles and policy setters, version strings, trailer length
  queries, `srtp_get_stream_roc`, and the loop over a list of policies in `srtp_update`.
- SessionSetup.AddStream: an invalid window size is refused before anything is allocated, while
  `srtp_stream_init` finds it after the keys have been allocated, which then stay behind. No stream may have
  more master keys than the template (`PolicyFits`): deallocation reads the template's table at the number of
  the stream's slot without a check (srtp.c:355-366), so the source leaves the rest undefined.
- SessionSetup.Create: the same condition on the list of policies.
- TemplateUpdate.UpdateListed: the same condition on the policy.
- TemplateUpdate.UpdateTemplateStreams: does not cover a failure in the middle of the loop, because removal
  is proved to succeed and allocation does not fail; a policy with more master keys for a stream that stays
  than for the new template is excluded by `UpdateFits`.
- NetworkReplay.NetworkIsSafe: covers one key epoch - no removal, addition or re-keying within the run. The
  sender's session receives no RTP packets and the receiver's sends none. Authenticity needs the
  authentication service outside the authenticated cipher, and different keys for different configurations
  (`Agreed`). Acceptance under the authenticated cipher that is not recorded may repeat.
- VectorUniqueness.NoVectorReuse: covers one key epoch without permission to repeat; under the null cipher
  vectors do not matter.
- ShortRuns.ShortRunReusesNothing: covers one key epoch without permission to repeat, from a session that has
  used no index yet.
- Delivery.SealedIsDelivered: does not say what happens to a packet that reaches no index of the receiver: it is
  taken for another index, and its tag fails unless two tags agree.
- Delivery.OrderlyPacketsArrive: covers one stream without a pending rollover counter, and no other calls in between.
- VectorUniqueness.NoBlockReuse: the octets of a block are those of the primitive; a packet of more than 2^16
  blocks is refused by the cipher, which is not part of this model.
- ReplayExactness.ReplayCheckIsExact: covers one key epoch, as above, and short runs; after a wrap of the
  rollover counter the index of a packet and its place in the window differ.
- RtcpRepeats.RtcpAcceptedOnceIff: covers one key epoch.
- RtcpNetwork.RtcpIsAuthentic: covers one key epoch on either side, and needs different authenticating keys for
  different SRTCP configurations (`RtcpAgreed`).
- RtcpPacket.SealedRtcpSlotIsFound: requires equal RTP and RTCP tag lengths outside the authenticated cipher,
  since the search goes by the RTP one.
- The contents of the filter tables: they are parameters with their lengths. Whether their gain leaves room
  in the sense of `SampleDoesNotOverflow` is not computed.
- Rounding of `pFactor` and of the steps in double precision.
- Resampler.DownTaps: rates lowered to less than a sixteenth are not covered; there the rounding of the
  filter step is no longer small against the margin.
- Resampler.SrcUp: requires that the block length times the square of the factor is at most 2^15
  (`StepsHold`), as the rounded step may lead past the end of the input otherwise.
- Resampler.SrcUD: requires this, and a factor of at least a sixteenth.
- Resampler.Resample: requires both.
- LinearResampler.SrcLinear: requires the same of block length and factor as the fast conversion.
- The Wi-Fi, console and SIP code, and the tool chain: input and output, or declarations only.
